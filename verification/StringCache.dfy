/** The string id cache over all its buckets, with its statistics. */
module StringCache {
  import opened Lru
  import opened Cache

  datatype State = State(buckets: seq<seq<Cell>>, hits: nat, misses: nat, evicted: nat)

  function Home(hash: nat -> nat, n: nat, id: nat): (b: nat)
    requires n > 0
    ensures b < n
  {
    hash(id) % n
  }

  ghost predicate Shape(st: State) {
    st.buckets != [] && forall b :: 0 <= b < |st.buckets| ==> |st.buckets[b]| == SIZE
  }

  /** One request to the cache. */
  function Serve(st: State, hash: nat -> nat, fetch: Fetch, id: nat): State
    requires Shape(st)
  {
    var b := Home(hash, |st.buckets|, id);
    var cells := st.buckets[b];
    var after := st.buckets[b := Request(cells, id, fetch)];
    if Find(cells, id) < SIZE then State(after, st.hits + 1, st.misses, st.evicted)
    else State(after, st.hits, st.misses + 1, st.evicted + (if cells[SIZE - 1].text.Text? then 1 else 0))
  }

  /** The string a request returns. */
  function Answer(st: State, hash: nat -> nat, fetch: Fetch, id: nat): string
    requires Shape(st) && Servable(st.buckets[Home(hash, |st.buckets|, id)], id)
  {
    var cells := st.buckets[Home(hash, |st.buckets|, id)];
    if Find(cells, id) < SIZE then cells[Find(cells, id)].text.s else fetch(id)
  }

  function Fresh(n: nat): State { State(seq(n, _ => seq(SIZE, _ => EMPTY)), 0, 0, 0) }

  function RunAll(n: nat, hash: nat -> nat, fetch: Fetch, requests: seq<nat>): (st: State)
    requires n > 0
    ensures Shape(st) && |st.buckets| == n
    decreases |requests|
  {
    if requests == [] then Fresh(n)
    else Serve(RunAll(n, hash, fetch, requests[..|requests| - 1]), hash, fetch, requests[|requests| - 1])
  }

  /** The requests that go to bucket b. */
  function Share(n: nat, hash: nat -> nat, requests: seq<nat>, b: nat): seq<nat>
    requires n > 0
    decreases |requests|
  {
    if requests == [] then []
    else
      var last := requests[|requests| - 1];
      Share(n, hash, requests[..|requests| - 1], b) + (if Home(hash, n, last) == b then [last] else [])
  }

  /** Each bucket lives through its own requests only. */
  lemma {:induction false} BucketRuns(n: nat, hash: nat -> nat, fetch: Fetch, requests: seq<nat>, b: nat)
    requires b < n
    ensures RunAll(n, hash, fetch, requests).buckets[b] == Run(Share(n, hash, requests, b), fetch)
    decreases |requests|
  {
    hide Request;
    if requests != [] {
      var init, last := requests[..|requests| - 1], requests[|requests| - 1];
      BucketRuns(n, hash, fetch, init, b);
      var share := Share(n, hash, init, b);
      assert (share + [last])[..|share|] == share;
      assert share + [] == share;
    }
  }

  /** Every answer is the string that the archive holds for the id. */
  lemma Transparent(n: nat, hash: nat -> nat, fetch: Fetch, requests: seq<nat>, id: nat)
    requires n > 0
    requires var share := Share(n, hash, requests, Home(hash, n, id));
      Served(share) && (id != 0 || |Recent(share)| >= SIZE)
    ensures var st := RunAll(n, hash, fetch, requests);
      Servable(st.buckets[Home(hash, n, id)], id) && Answer(st, hash, fetch, id) == fetch(id)
  {
    hide Request, Recent, Share, RunAll, Run, Find;
    var b := Home(hash, n, id);
    var share := Share(n, hash, requests, b);
    BucketRuns(n, hash, fetch, requests, b);
    RunHolds(share, fetch);
    FindHeld(Run(share, fetch), share, fetch, id);
  }

  // ----- hits of the whole cache

  /** x was requested after the last request of id. */
  ghost predicate RequestedSince(requests: seq<nat>, id: nat, x: nat) {
    x != id
    && exists i ::
      0 <= i < |requests| && requests[i] == x && forall k :: i < k < |requests| ==> requests[k] != id
  }

  lemma {:induction false} SinceExactly(requests: seq<nat>, id: nat, x: nat)
    ensures x in Since(requests, id) <==> RequestedSince(requests, id, x)
    decreases |requests|
  {
    if requests != [] {
      var n := |requests| - 1;
      var init := requests[..n];
      SinceExactly(init, id, x);
      if RequestedSince(requests, id, x) && requests[n] != x {
        var i :| 0 <= i < |requests| && requests[i] == x && forall k :: i < k < |requests| ==> requests[k] != id;
        assert init[i] == x;
      }
      if RequestedSince(init, id, x) && requests[n] != id {
        var i :| 0 <= i < n && init[i] == x && forall k :: i < k < n ==> init[k] != id;
        assert requests[i] == x;
      }
      assert requests[n] == x && x != id ==> RequestedSince(requests, id, x);
    }
  }

  /** Of what a bucket was asked for since, nothing is missing in its share. */
  lemma {:induction false} ShareSince(n: nat, hash: nat -> nat, requests: seq<nat>, id: nat)
    requires n > 0
    ensures var share := Share(n, hash, requests, Home(hash, n, id));
      && (id in share <==> id in requests)
      && Since(share, id) == set x | x in Since(requests, id) && Home(hash, n, x) == Home(hash, n, id)
    decreases |requests|
  {
    hide Home, Since, Share;
    NoneShared(n, hash, id);
    if requests != [] {
      var init, last := requests[..|requests| - 1], requests[|requests| - 1];
      var b := Home(hash, n, id);
      ShareSince(n, hash, init, id);
      assert requests == init + [last];
      ShareNext(n, hash, init, last, b);
      SinceNext(init, last, id);
      SinceNext(Share(n, hash, init, b), last, id);
    }
  }

  lemma NoneShared(n: nat, hash: nat -> nat, id: nat)
    requires n > 0
    ensures Share(n, hash, [], Home(hash, n, id)) == [] && Since([], id) == {}
  {
  }

  lemma ShareNext(n: nat, hash: nat -> nat, requests: seq<nat>, x: nat, b: nat)
    requires n > 0
    ensures Share(n, hash, requests + [x], b)
            == if Home(hash, n, x) == b then Share(n, hash, requests, b) + [x] else Share(n, hash, requests, b)
  {
    hide Home;
    assert (requests + [x])[..|requests|] == requests;
  }

  lemma SinceNext(requests: seq<nat>, x: nat, id: nat)
    ensures Since(requests + [x], id) == if x == id then {} else Since(requests, id) + {x}
  {
    assert (requests + [x])[..|requests|] == requests;
  }

  /** Two ids share a bucket exactly when the number of buckets divides the difference of their
      hash codes. */
  lemma SameHome(hash: nat -> nat, n: nat, x: nat, y: nat)
    requires n > 0
    ensures Home(hash, n, x) == Home(hash, n, y) <==> (hash(x) - hash(y)) % n == 0
  {
    var a, b := hash(x), hash(y);
    var d := a / n - b / n;
    assert a - b == n * d + (a % n - b % n) by {
      assert n * d == n * (a / n) - n * (b / n);
    }
    Divides(n, d, a % n - b % n);
  }

  lemma Divides(n: nat, d: int, r: int)
    requires n > 0 && 0 - n < r < n
    ensures (n * d + r) % n == 0 <==> r == 0
  {
    var q := (n * d + r) / n;
    if (n * d + r) % n == 0 {
      assert n * (q - d) == r by {
        assert n * (q - d) == n * q - n * d;
      }
      if q - d >= 1 {
        assert n * (q - d) == n + n * (q - d - 1);
      } else if q - d <= -1 {
        assert n * (q - d) == n * (q - d + 1) - n;
      }
    }
    if r == 0 {
      assert n * (q - d) == 0 - (n * d + r) % n by {
        assert n * (q - d) == n * q - n * d;
      }
      if q - d >= 0 {
        assert n * (q - d) >= 0;
      } else {
        assert n * (q - d) == n * (q - d + 1) - n;
      }
    }
  }

  /** The ids that compete with id for a place: requested since its last request, with a hash code
      that differs by a multiple of the number of buckets. */
  ghost function Rivals(n: nat, hash: nat -> nat, requests: seq<nat>, id: nat): set<nat>
    requires n > 0
  {
    set x | x in requests && RequestedSince(requests, id, x) && (hash(x) - hash(id)) % n == 0
  }

  /** A get hits, and is counted as a hit, exactly when the id was requested before and has had fewer
      than 1024 rivals since; otherwise it is counted as a miss. */
  lemma CacheHits(n: nat, hash: nat -> nat, fetch: Fetch, requests: seq<nat>, id: nat)
    requires n > 0
    requires var share := Share(n, hash, requests, Home(hash, n, id));
      Served(share) && (id != 0 || |Recent(share)| >= SIZE)
    ensures var st, next := RunAll(n, hash, fetch, requests), RunAll(n, hash, fetch, requests + [id]);
      var hit := id in requests && |Rivals(n, hash, requests, id)| < 1024;
      && next.hits == st.hits + (if hit then 1 else 0) && next.misses == st.misses + (if hit then 0 else 1)
      && (hit ==> next.evicted == st.evicted)
  {
    hide Find, Request, Recent, Run, Home, Share, Since, RunAll, Served, RequestedSince;
    var b := Home(hash, n, id);
    var share := Share(n, hash, requests, b);
    BucketRuns(n, hash, fetch, requests, b);
    HitExactly(share, fetch, id);
    ShareSince(n, hash, requests, id);
    forall x
      ensures x in Since(share, id) <==> x in Rivals(n, hash, requests, id)
    {
      SinceExactly(requests, id, x);
      SameHome(hash, n, x, id);
      if x in Since(requests, id) {
        SinceRequested(requests, id, x);
      }
    }
    assert Since(share, id) == Rivals(n, hash, requests, id);
    NextGet(n, hash, fetch, requests, id);
  }

  lemma {:induction false} SinceRequested(requests: seq<nat>, id: nat, x: nat)
    requires x in Since(requests, id)
    ensures x in requests
    decreases |requests|
  {
    var n := |requests| - 1;
    if x != requests[n] {
      SinceRequested(requests[..n], id, x);
    }
  }

  lemma NextGet(n: nat, hash: nat -> nat, fetch: Fetch, requests: seq<nat>, id: nat)
    requires n > 0
    ensures var st := RunAll(n, hash, fetch, requests);
      RunAll(n, hash, fetch, requests + [id]) == Serve(st, hash, fetch, id)
  {
    hide Serve;
    assert (requests + [id])[..|requests|] == requests;
  }

  // ----- statistics

  function Occupied(cells: seq<Cell>): nat {
    if cells == [] then 0 else (if cells[0].text.Text? then 1 else 0) + Occupied(cells[1..])
  }

  function AllOccupied(buckets: seq<seq<Cell>>): nat {
    if buckets == [] then 0 else Occupied(buckets[0]) + AllOccupied(buckets[1..])
  }

  lemma {:induction false} OccupiedBoth(a: seq<Cell>, b: seq<Cell>)
    ensures Occupied(a + b) == Occupied(a) + Occupied(b)
    decreases a
  {
    if a == [] {
      assert a + b == b;
    } else {
      OccupiedBoth(a[1..], b);
      assert (a + b)[1..] == a[1..] + b;
    }
  }

  lemma OccupiedToFront(cells: seq<Cell>, k: nat)
    requires k < |cells|
    ensures Occupied(ToFront(cells, k)) == Occupied(cells)
  {
    hide Occupied, ToFront;
    var a, x, b := cells[..k], [cells[k]], cells[k + 1..];
    FrontParts(cells, k);
    OccupiedBoth(a + x, b);
    OccupiedBoth(a, x);
    OccupiedBoth(x + a, b);
    OccupiedBoth(x, a);
  }

  lemma FrontParts(cells: seq<Cell>, k: nat)
    requires k < |cells|
    ensures cells == cells[..k] + [cells[k]] + cells[k + 1..]
    ensures ToFront(cells, k) == [cells[k]] + cells[..k] + cells[k + 1..]
  {
    hide Occupied;
  }

  lemma OccupiedMiss(cells: seq<Cell>, x: Cell)
    requires cells != [] && x.text.Text?
    ensures var last := |cells| - 1;
      Occupied(ToFront(cells[last := x], last)) + (if cells[last].text.Text? then 1 else 0) == Occupied(cells) + 1
  {
    var last := |cells| - 1;
    LastToFront(cells, x);
    OccupiedBoth([x], cells[..last]);
    OccupiedBoth(cells[..last], [cells[last]]);
    assert cells == cells[..last] + [cells[last]];
    assert [x][1..] == [] && [cells[last]][1..] == [];
  }

  lemma {:induction false} AllOccupiedUpdate(buckets: seq<seq<Cell>>, b: nat, cells: seq<Cell>)
    requires b < |buckets|
    ensures AllOccupied(buckets[b := cells]) == AllOccupied(buckets) - Occupied(buckets[b]) + Occupied(cells)
    decreases buckets
  {
    if b > 0 {
      AllOccupiedUpdate(buckets[1..], b - 1, cells);
      assert buckets[b := cells][1..] == buckets[1..][b - 1 := cells];
    } else {
      assert buckets[b := cells][1..] == buckets[1..];
    }
  }

  lemma {:induction false} NoneOccupied(n: nat)
    ensures AllOccupied(Fresh(n).buckets) == 0
    decreases n
  {
    EmptyCells(SIZE);
    if n > 0 {
      NoneOccupied(n - 1);
      assert Fresh(n).buckets[1..] == Fresh(n - 1).buckets;
    }
  }

  lemma {:induction false} EmptyCells(n: nat)
    ensures Occupied(seq(n, _ => EMPTY)) == 0
    decreases n
  {
    if n > 0 {
      EmptyCells(n - 1);
      assert seq(n, _ => EMPTY)[1..] == seq(n - 1, _ => EMPTY);
    }
  }

  /** Over every run: hits and misses make up all requests, and every miss fills an empty cell
      or evicts a string. */
  lemma {:induction false} Conserved(n: nat, hash: nat -> nat, fetch: Fetch, requests: seq<nat>)
    requires n > 0
    ensures var st := RunAll(n, hash, fetch, requests);
      st.hits + st.misses == |requests| && st.misses == st.evicted + AllOccupied(st.buckets)
    decreases |requests|
  {
    hide Find, AllOccupied, Occupied, ToFront;
    if requests == [] {
      NoneOccupied(n);
    } else {
      var init, id := requests[..|requests| - 1], requests[|requests| - 1];
      Conserved(n, hash, fetch, init);
      var st := RunAll(n, hash, fetch, init);
      var b := Home(hash, n, id);
      AllOccupiedUpdate(st.buckets, b, Request(st.buckets[b], id, fetch));
      if Find(st.buckets[b], id) < SIZE {
        OccupiedToFront(st.buckets[b], Find(st.buckets[b], id));
      } else {
        OccupiedMiss(st.buckets[b], Cell(id, Text(fetch(id))));
      }
    }
  }

  // ----- the cache itself

  class StringCache {
    const buckets: seq<LruList>
    const hash: nat -> nat
    const fetch: Fetch
    var hits: nat
    var misses: nat
    var evicted: nat

    /** The buckets are sound lists that share nothing. */
    ghost predicate Valid()
      reads this, buckets, set i | 0 <= i < |buckets| :: buckets[i].entries
    {
      && buckets != []
      && (forall i :: 0 <= i < |buckets| ==> buckets[i].Valid())
      && (forall i, j :: 0 <= i < j < |buckets| ==>
        buckets[i] != buckets[j] && buckets[i].entries != buckets[j].entries)
    }

    ghost function Now(): (st: State)
      requires Valid()
      reads this, buckets, set i | 0 <= i < |buckets| :: buckets[i].entries
      ensures Shape(st) && |st.buckets| == |buckets|
      ensures forall i :: 0 <= i < |buckets| ==> st.buckets[i] == buckets[i].Contents()
    {
      State(seq(|buckets|, i requires 0 <= i < |buckets|
                             reads this, buckets, set k | 0 <= k < |buckets| :: buckets[k].entries
                             requires Valid() => buckets[i].Contents()), hits, misses, evicted)
    }

    constructor CreateLru(capacity: nat, hash: nat -> nat, fetch: Fetch)
      ensures Valid() && this.hash == hash && this.fetch == fetch
      ensures Now() == Fresh(if capacity > 1 then capacity else 1)
    {
      var numBuckets := if capacity > 1 then capacity else 1;
      var lists: seq<LruList> := [];
      for i := 0 to numBuckets
        invariant |lists| == i && forall k :: 0 <= k < i ==> fresh(lists[k]) && fresh(lists[k].entries)
        invariant forall k :: 0 <= k < i ==> lists[k].Valid() && lists[k].Contents() == seq(SIZE, _ => EMPTY)
        invariant forall k, l :: 0 <= k < l < i ==> lists[k] != lists[l] && lists[k].entries != lists[l].entries
      {
        var list := new LruList.InitList();
        lists := lists + [list];
      }
      buckets := lists;
      this.hash, this.fetch, hits, misses, evicted := hash, fetch, 0, 0, 0;
    }

    function BucketFor(id: nat): LruList
      requires buckets != []
    {
      buckets[Home(hash, |buckets|, id)]
    }

    /** Returns the string of an id; only the id's own bucket changes. */
    method Get(id: nat) returns (result: string)
      requires Valid() && Servable(BucketFor(id).Contents(), id)
      modifies this`hits, this`misses, this`evicted, BucketFor(id), BucketFor(id).entries
      ensures Valid() && Now() == Serve(old(Now()), hash, fetch, id)
      ensures result == old(Answer(Now(), hash, fetch, id))
      ensures Now().buckets[hash(id) % |buckets|][0].id == id
      ensures forall b :: 0 <= b < |buckets| && b != hash(id) % |buckets| ==> Now().buckets[b] == old(Now()).buckets[b]
    {
      hide Linked, ToFront, Moved, Cells, Find, Serve, Answer, Servable, Home;
      ghost var b, before := Home(hash, |buckets|, id), Now();
      ServePlace(before, hash, fetch, id);
      var list := BucketFor(id);
      ghost var cells := list.Contents();
      assert cells == before.buckets[b];
      ghost var k;
      var cursor: int;
      cursor, k := list.Search(id);
      if cursor != NIL {
        ServeHit(before, hash, fetch, id, k);
        result := list.entries[cursor].text.s;
        list.MakeMostRecent(cursor, k);
        Counted(b, before, hits + 1, misses, evicted);
      } else {
        ServeMiss(before, hash, fetch, id);
        result := fetch(id);
        var lost := if list.entries[list.lestRecent].text != NoText then 1 else 0;
        list.Reuse(id, Text(result));
        Counted(b, before, hits, misses + 1, evicted + lost);
      }
    }

    /** Updates the statistics after bucket b has served a request. */
    method Counted(ghost b: nat, ghost before: State, hits': nat, misses': nat, evicted': nat)
      requires b < |buckets| == |before.buckets| && forall i :: 0 <= i < |buckets| ==> buckets[i].Valid()
      requires forall i :: 0 <= i < |buckets| && i != b ==> buckets[i].Contents() == before.buckets[i]
      requires forall i, j :: 0 <= i < j < |buckets| ==>
        buckets[i] != buckets[j] && buckets[i].entries != buckets[j].entries
      modifies this`hits, this`misses, this`evicted
      ensures Valid() && Now() == State(before.buckets[b := buckets[b].Contents()], hits', misses', evicted')
    {
      hide Linked, Cells;
      hits, misses, evicted := hits', misses', evicted';
      assert Now().buckets == before.buckets[b := buckets[b].Contents()];
    }
  }

  /** A request brings its id to the front of the bucket that its hash code names, and leaves the
      others alone. */
  lemma ServePlace(st: State, hash: nat -> nat, fetch: Fetch, id: nat)
    requires Shape(st)
    ensures var b, r := hash(id) % |st.buckets|, Serve(st, hash, fetch, id);
      && |r.buckets| == |st.buckets| && |r.buckets[b]| == SIZE && r.buckets[b][0].id == id
      && forall k :: 0 <= k < |st.buckets| && k != b ==> r.buckets[k] == st.buckets[k]
  {
  }

  /** What a request does whose id is first met at place k. */
  lemma ServeHit(st: State, hash: nat -> nat, fetch: Fetch, id: nat, k: nat)
    requires Shape(st) && k < SIZE
    requires var cells := st.buckets[Home(hash, |st.buckets|, id)];
      Servable(cells, id) && cells[k].id == id && forall i :: 0 <= i < k ==> cells[i].id != id
    ensures var b := Home(hash, |st.buckets|, id);
      && st.buckets[b][k].text.Text? && Answer(st, hash, fetch, id) == st.buckets[b][k].text.s
      && Serve(st, hash, fetch, id)
         == State(st.buckets[b := ToFront<Cell>(st.buckets[b], k)], st.hits + 1, st.misses, st.evicted)
  {
    assert Find(st.buckets[Home(hash, |st.buckets|, id)], id) == k;
  }

  /** What a request does whose id is not met. */
  lemma ServeMiss(st: State, hash: nat -> nat, fetch: Fetch, id: nat)
    requires Shape(st)
    requires forall i :: 0 <= i < SIZE ==> st.buckets[Home(hash, |st.buckets|, id)][i].id != id
    ensures var b := Home(hash, |st.buckets|, id); var cells := st.buckets[b];
      && Servable(cells, id) && Answer(st, hash, fetch, id) == fetch(id)
      && Serve(st, hash, fetch, id)
         == State(st.buckets[b := ToFront<Cell>(cells[SIZE - 1 := Cell(id, Text(fetch(id)))], SIZE - 1)],
                  st.hits, st.misses + 1, st.evicted + (if cells[SIZE - 1].text.Text? then 1 else 0))
  {
    assert Find(st.buckets[Home(hash, |st.buckets|, id)], id) == SIZE;
  }
}
