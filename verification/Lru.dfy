/** What a bucket of the string cache means: the cells from most to least recently used. */
module Lru {

  const SIZE: nat := 1024

  datatype Text = NoText | Text(s: string)

  datatype Cell = Cell(id: nat, text: Text)

  /** Fetches a string from the archive. */
  type Fetch = nat -> string

  const EMPTY: Cell := Cell(0, NoText)

  /** The first cell with the id; the number of cells if there is none. */
  function Find(cells: seq<Cell>, id: nat): (k: nat)
    ensures k <= |cells| && (k < |cells| ==> cells[k].id == id) && forall i :: 0 <= i < k ==> cells[i].id != id
  {
    if cells == [] || cells[0].id == id then 0 else 1 + Find(cells[1..], id)
  }

  function ToFront<T>(xs: seq<T>, k: nat): (ys: seq<T>)
    requires k < |xs|
    ensures |ys| == |xs| && ys[0] == xs[k]
    ensures forall i :: 0 < i < |xs| ==> ys[i] == if i <= k then xs[i - 1] else xs[i]
  {
    [xs[k]] + xs[..k] + xs[k + 1..]
  }

  /** A request: the cell of a cached id moves to the front; otherwise the last cell is given to
      the id and moves there. */
  function Request(cells: seq<Cell>, id: nat, fetch: Fetch): (after: seq<Cell>)
    requires cells != []
    ensures |after| == |cells|
  {
    var k, last := Find(cells, id), |cells| - 1;
    if k < |cells| then ToFront(cells, k)
    else ToFront(cells[last := Cell(id, Text(fetch(id)))], last)
  }

  // ----- which ids were requested last

  function Without(s: seq<nat>, x: nat): (t: seq<nat>)
    ensures |t| <= |s| && x !in t && (x !in s ==> t == s)
    ensures forall y :: y in t <==> y in s && y != x
  {
    if s == [] then [] else (if s[0] == x then [] else [s[0]]) + Without(s[1..], x)
  }

  /** The distinct ids of a run of requests, the last requested first. */
  function Recent(requests: seq<nat>): (r: seq<nat>)
    ensures forall x :: x in r <==> x in requests
    decreases |requests|
  {
    if requests == [] then []
    else var n := |requests| - 1;
      assert requests == requests[..n] + [requests[n]];
      [requests[n]] + Without(Recent(requests[..n]), requests[n])
  }

  ghost predicate Distinct(s: seq<nat>) {
    forall i, j :: 0 <= i < j < |s| ==> s[i] != s[j]
  }

  lemma {:induction false} WithoutAt(s: seq<nat>, x: nat, k: nat)
    requires Distinct(s) && k < |s| && s[k] == x
    ensures Without(s, x) == s[..k] + s[k + 1..]
    decreases s
  {
    if k > 0 {
      WithoutAt(s[1..], x, k - 1);
      assert s[..k] == [s[0]] + s[1..][..k - 1];
    } else {
      assert x !in s[1..];
      assert s[..0] == [];
    }
  }

  lemma WithoutDistinct(s: seq<nat>, x: nat)
    requires Distinct(s)
    ensures Distinct(Without(s, x)) && Distinct([x] + Without(s, x))
  {
    if x in s {
      var k :| 0 <= k < |s| && s[k] == x;
      WithoutAt(s, x, k);
    }
  }

  lemma {:induction false} RecentDistinct(requests: seq<nat>)
    ensures Distinct(Recent(requests))
    decreases |requests|
  {
    if requests != [] {
      var n := |requests| - 1;
      RecentDistinct(requests[..n]);
      WithoutDistinct(Recent(requests[..n]), requests[n]);
    }
  }

  // ----- whole runs

  /** The cells after a run: the most recently requested distinct ids with their strings, as many
      as fit, then empty cells. */
  ghost predicate Holds(cells: seq<Cell>, requests: seq<nat>, fetch: Fetch) {
    var r := Recent(requests);
    |cells| == SIZE && forall k :: 0 <= k < SIZE ==>
      cells[k] == if k < |r| then Cell(r[k], Text(fetch(r[k]))) else EMPTY
  }

  /** A request that does not end at an empty cell: its id is not 0, or no cell is empty. */
  ghost predicate Servable(cells: seq<Cell>, id: nat) {
    var k := Find(cells, id); k < |cells| ==> cells[k].text.Text?
  }

  /** A run whose requests can all be served. */
  ghost predicate Served(requests: seq<nat>)
    decreases |requests|
  {
    requests == [] ||
    var n := |requests| - 1;
    Served(requests[..n]) && (requests[n] != 0 || |Recent(requests[..n])| >= SIZE)
  }

  function Run(requests: seq<nat>, fetch: Fetch): (cells: seq<Cell>)
    ensures |cells| == SIZE
    decreases |requests|
  {
    if requests == [] then seq(SIZE, _ => EMPTY)
    else Request(Run(requests[..|requests| - 1], fetch), requests[|requests| - 1], fetch)
  }

  lemma FindHeld(cells: seq<Cell>, requests: seq<nat>, fetch: Fetch, id: nat)
    requires Holds(cells, requests, fetch)
    ensures Servable(cells, id) <==> id != 0 || |Recent(requests)| >= SIZE || Find(cells, id) < |Recent(requests)|
    ensures id != 0 || |Recent(requests)| >= SIZE ==>
      (Find(cells, id) < SIZE ==> Find(cells, id) < |Recent(requests)| && Recent(requests)[Find(cells, id)] == id)
      && (Find(cells, id) == SIZE ==> forall k :: 0 <= k < SIZE && k < |Recent(requests)| ==> Recent(requests)[k] != id)
  {
    hide Recent, Find;
    var r, k := Recent(requests), Find(cells, id);
    if k == SIZE {
      forall i | 0 <= i < SIZE && i < |r|
        ensures r[i] != id
      {
        assert cells[i].id != id;
      }
    }
    if id == 0 && |r| < SIZE {
      assert cells[|r|] == EMPTY;
    }
  }

  /** One more request keeps the meaning of the bucket. */
  lemma RequestHolds(cells: seq<Cell>, requests: seq<nat>, fetch: Fetch, id: nat)
    requires Holds(cells, requests, fetch) && (id != 0 || |Recent(requests)| >= SIZE)
    ensures Holds(Request(cells, id, fetch), requests + [id], fetch)
  {
    hide Find, ToFront, Recent, Without, Holds;
    var r, k := Recent(requests), Find(cells, id);
    FindHeld(cells, requests, fetch, id);
    RecentNext(requests, id);
    if k < SIZE {
      HitHolds(cells, requests, fetch, id, k);
    } else {
      HeldSize(cells, requests, fetch);
      MissHolds(cells, requests, fetch, id);
    }
  }

  lemma HeldSize(cells: seq<Cell>, requests: seq<nat>, fetch: Fetch)
    requires Holds(cells, requests, fetch)
    ensures |cells| == SIZE
  {
  }

  lemma FrontParts(r: seq<nat>, k: nat)
    requires k < |r|
    ensures [r[k]] + (r[..k] + r[k + 1..]) == ToFront<nat>(r, k)
  {
  }

  lemma HitHolds(cells: seq<Cell>, requests: seq<nat>, fetch: Fetch, id: nat, k: nat)
    requires Holds(cells, requests, fetch) && k < SIZE && k < |Recent(requests)| && Recent(requests)[k] == id
    ensures |cells| == SIZE && Holds(ToFront(cells, k), requests + [id], fetch)
  {
    hide ToFront, Recent, Without;
    var r, r' := Recent(requests), Recent(requests + [id]);
    RecentDistinct(requests);
    RecentNext(requests, id);
    WithoutAt(r, id, k);
    FrontParts(r, k);
    assert r' == ToFront<nat>(r, k);
    var after := ToFront(cells, k);
    forall i | 0 <= i < SIZE
      ensures after[i] == if i < |r'| then Cell(r'[i], Text(fetch(r'[i]))) else EMPTY
    {
      CellMoved(cells, r, fetch, k, i);
    }
  }

  /** Moving a cell to the front moves its id to the front. */
  lemma CellMoved(cells: seq<Cell>, r: seq<nat>, fetch: Fetch, k: nat, i: nat)
    requires |cells| == SIZE && k < SIZE && k < |r| && i < SIZE
    requires forall j :: 0 <= j < SIZE ==> cells[j] == if j < |r| then Cell(r[j], Text(fetch(r[j]))) else EMPTY
    ensures ToFront<Cell>(cells, k)[i]
            == if i < |r| then Cell(ToFront<nat>(r, k)[i], Text(fetch(ToFront<nat>(r, k)[i]))) else EMPTY
  {
    var j := if i == 0 then k else if i <= k then i - 1 else i;
    assert ToFront<Cell>(cells, k)[i] == cells[j];
    if i < |r| {
      assert ToFront<nat>(r, k)[i] == r[j];
    }
  }

  lemma MissHolds(cells: seq<Cell>, requests: seq<nat>, fetch: Fetch, id: nat)
    requires Holds(cells, requests, fetch)
    requires forall k :: 0 <= k < SIZE && k < |Recent(requests)| ==> Recent(requests)[k] != id
    ensures |cells| == SIZE
    ensures Holds(ToFront(cells[SIZE - 1 := Cell(id, Text(fetch(id)))], SIZE - 1), requests + [id], fetch)
  {
    hide ToFront, Recent, Without;
    var r, t := Recent(requests), Without(Recent(requests), id);
    RecentDistinct(requests);
    RecentNext(requests, id);
    FrontUnchanged(r, id);
    LastToFront(cells, Cell(id, Text(fetch(id))));
    PrependHolds([Cell(id, Text(fetch(id)))] + cells[..SIZE - 1], id, t, fetch);
  }

  lemma LastToFront(cells: seq<Cell>, x: Cell)
    requires cells != []
    ensures var last := |cells| - 1; ToFront(cells[last := x], last) == [x] + cells[..last]
  {
  }

  lemma FrontUnchanged(r: seq<nat>, id: nat)
    requires Distinct(r) && forall k :: 0 <= k < SIZE && k < |r| ==> r[k] != id
    ensures var t := Without(r, id);
      forall i :: 0 <= i < SIZE - 1 ==> (i < |t| <==> i < |r|) && (i < |r| ==> t[i] == r[i])
  {
    if id in r {
      var j :| 0 <= j < |r| && r[j] == id;
      WithoutAt(r, id, j);
    }
  }

  lemma PrependHolds(after: seq<Cell>, id: nat, t: seq<nat>, fetch: Fetch)
    requires |after| == SIZE && after[0] == Cell(id, Text(fetch(id)))
    requires forall i :: 0 < i < SIZE ==>
      after[i] == if i - 1 < |t| then Cell(t[i - 1], Text(fetch(t[i - 1]))) else EMPTY
    ensures var r := [id] + t;
      forall k :: 0 <= k < SIZE ==> after[k] == if k < |r| then Cell(r[k], Text(fetch(r[k]))) else EMPTY
  {
  }

  lemma RecentNext(requests: seq<nat>, id: nat)
    ensures Recent(requests + [id]) == [id] + Without(Recent(requests), id)
  {
    assert (requests + [id])[..|requests|] == requests;
  }

  /** After every run the bucket holds exactly the most recently requested ids. */
  lemma {:induction false} RunHolds(requests: seq<nat>, fetch: Fetch)
    requires Served(requests)
    ensures Holds(Run(requests, fetch), requests, fetch)
    decreases |requests|
  {
    hide Request, Recent;
    if requests != [] {
      var n := |requests| - 1;
      RunHolds(requests[..n], fetch);
      RequestHolds(Run(requests[..n], fetch), requests[..n], fetch, requests[n]);
      assert requests == requests[..n] + [requests[n]];
    } else {
      assert Recent([]) == [] by { NoneRecent(); }
    }
  }

  lemma NoneRecent()
    ensures Recent([]) == []
  {
  }

  /** A request after a served run can be served exactly when its id is not 0 or the bucket is
      full: id 0 otherwise ends at an empty cell, which has no string. */
  lemma ServableExactly(requests: seq<nat>, fetch: Fetch, id: nat)
    requires Served(requests)
    ensures Servable(Run(requests, fetch), id) <==> id != 0 || |Recent(requests)| >= SIZE
  {
    hide Recent, Find, Run;
    RunHolds(requests, fetch);
    FindHeld(Run(requests, fetch), requests, fetch, id);
    if id == 0 && |Recent(requests)| < SIZE {
      ZeroAbsent(requests);
      var cells, k := Run(requests, fetch), |Recent(requests)|;
      assert cells[k] == EMPTY;
    }
  }

  lemma {:induction false} ZeroAbsent(requests: seq<nat>)
    requires Served(requests) && |Recent(requests)| < SIZE
    ensures 0 !in Recent(requests)
    decreases |requests|
  {
    if requests != [] {
      var n := |requests| - 1;
      RecentGrows(requests[..n], requests[n]);
      assert requests == requests[..n] + [requests[n]];
      ZeroAbsent(requests[..n]);
    }
  }

  lemma RecentGrows(requests: seq<nat>, id: nat)
    ensures |Recent(requests)| <= |Recent(requests + [id])|
  {
    RecentNext(requests, id);
    RecentDistinct(requests);
    if id in Recent(requests) {
      var k :| 0 <= k < |Recent(requests)| && Recent(requests)[k] == id;
      WithoutAt(Recent(requests), id, k);
    }
  }

  // ----- hits

  /** The ids requested since the last request of id. */
  function Since(requests: seq<nat>, id: nat): set<nat>
    decreases |requests|
  {
    if requests == [] || requests[|requests| - 1] == id then {}
    else Since(requests[..|requests| - 1], id) + {requests[|requests| - 1]}
  }

  function Elements(s: seq<nat>): (e: set<nat>)
    ensures forall x :: x in e <==> x in s
  {
    set x | x in s
  }

  lemma {:induction false} ElementsSize(s: seq<nat>)
    requires Distinct(s)
    ensures |Elements(s)| == |s|
    decreases s
  {
    if s == [] {
      assert Elements(s) == {};
    } else {
      ElementsSize(s[1..]);
      assert s == [s[0]] + s[1..];
      assert Elements(s) == {s[0]} + Elements(s[1..]);
    }
  }

  lemma CutOut(s: seq<nat>, j: nat, k: nat)
    requires j < k <= |s|
    ensures (s[..j] + s[j + 1..])[..k - 1] == s[..j] + s[j + 1..k]
    ensures s[..k] == s[..j] + [s[j]] + s[j + 1..k]
  {
  }

  /** In front of an id are exactly the ids requested since. */
  lemma {:induction false} SinceInFront(requests: seq<nat>, k: nat)
    requires k < |Recent(requests)|
    ensures Elements(Recent(requests)[..k]) == Since(requests, Recent(requests)[k])
    decreases |requests|
  {
    hide Elements, Recent, Without;
    var n := |requests| - 1;
    assert requests != [] by { NoneRecent(); }
    var init, last := requests[..n], requests[n];
    var r, s := Recent(requests), Recent(init);
    assert requests == init + [last];
    RecentNext(init, last);
    RecentDistinct(requests);
    RecentDistinct(init);
    if k == 0 {
      assert r[..0] == [];
    } else {
      assert r[0] == last && r[k] != last;
      var t := Without(s, last);
      assert r[..k] == [last] + t[..k - 1] && r[k] == t[k - 1];
      if last in s {
        var j :| 0 <= j < |s| && s[j] == last;
        WithoutAt(s, last, j);
        if k <= j {
          SinceInFront(init, k - 1);
          assert t[..k - 1] == s[..k - 1];
        } else {
          SinceInFront(init, k);
          CutOut(s, j, k);
        }
      } else {
        SinceInFront(init, k - 1);
      }
    }
  }

  /** A request hits if and only if its id was requested before and fewer than 1024 other ids
      have been since. */
  lemma HitExactly(requests: seq<nat>, fetch: Fetch, id: nat)
    requires Served(requests) && (id != 0 || |Recent(requests)| >= SIZE)
    ensures Find(Run(requests, fetch), id) < 1024 <==> id in requests && |Since(requests, id)| < 1024
  {
    hide Find, Run, Since, Recent;
    var cells, r := Run(requests, fetch), Recent(requests);
    RunHolds(requests, fetch);
    FindHeld(cells, requests, fetch, id);
    RecentDistinct(requests);
    if id in requests {
      var k :| 0 <= k < |r| && r[k] == id;
      SinceInFront(requests, k);
      assert Distinct(r[..k]);
      ElementsSize(r[..k]);
      if k < SIZE {
        assert cells[k].id == id;
      }
    }
  }
}
