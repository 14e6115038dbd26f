/** The string id cache: buckets that are doubly linked lists threaded through arrays, rewired in
    place on every request. */
module Cache {
  import opened Lru

  /** The null pointer; every other link is the index of an entry. */
  const NIL: int := -1

  datatype Node = Node(prev: int, next: int, id: nat, text: Text)

  // ----- the list

  /** The entries form one list without branches or cycles: it runs from head to tail through
      every entry once, and prev is the inverse of next, except that the head's prev may be
      anything. */
  ghost predicate Linked(nodes: seq<Node>, order: seq<nat>, head: nat, tail: nat) {
    && |nodes| == |order| == SIZE
    && (forall i :: 0 <= i < SIZE ==> order[i] < SIZE)
    && (forall i, j :: 0 <= i < j < SIZE ==> order[i] != order[j])
    && order[0] == head && order[SIZE - 1] == tail
    && (forall i :: 0 <= i < SIZE ==> nodes[order[i]].next == if i + 1 < SIZE then order[i + 1] else NIL)
    && (forall i :: 0 < i < SIZE ==> nodes[order[i]].prev == order[i - 1])
  }

  /** Every entry is on the list. */
  lemma AllOnList(nodes: seq<Node>, order: seq<nat>, head: nat, tail: nat, e: nat)
    requires Linked(nodes, order, head, tail) && e < SIZE
    ensures e in order
  {
    if e !in order {
      Pigeons(order + [e], SIZE);
    }
  }

  /** Distinct numbers below n are at most n. */
  lemma {:induction false} Pigeons(s: seq<nat>, n: nat)
    requires forall i :: 0 <= i < |s| ==> s[i] < n
    requires forall i, j :: 0 <= i < j < |s| ==> s[i] != s[j]
    ensures |s| <= n
    decreases n
  {
    if s != [] {
      assert s[0] < n;
      if k :| 0 <= k < |s| && s[k] == n - 1 {
        Pigeons(s[..k] + s[k + 1..], n - 1);
      } else {
        Pigeons(s, n - 1);
      }
    }
  }

  ghost function Cells(nodes: seq<Node>, order: seq<nat>): (cells: seq<Cell>)
    requires |nodes| == |order| && forall i :: 0 <= i < |order| ==> order[i] < |nodes|
    ensures |cells| == |order|
    ensures forall i :: 0 <= i < |order| ==> cells[i] == Cell(nodes[order[i]].id, nodes[order[i]].text)
  {
    seq(|order|, i requires 0 <= i < |order| => Cell(nodes[order[i]].id, nodes[order[i]].text))
  }

  /** The links at place i. */
  lemma LinkAt(nodes: seq<Node>, order: seq<nat>, head: nat, tail: nat, i: nat)
    requires Linked(nodes, order, head, tail) && i < SIZE
    ensures |nodes| == |order| == SIZE && order[i] < SIZE && order[0] == head && order[SIZE - 1] == tail
    ensures nodes[order[i]].next == if i + 1 < SIZE then order[i + 1] else NIL
    ensures i > 0 ==> nodes[order[i]].prev == order[i - 1]
  {
  }

  /** The entries after entry e, not the head, is made the most recent one. */
  function Moved(nodes: seq<Node>, head: nat, e: nat): seq<Node>
    requires head < |nodes| && e < |nodes|
  {
    var n := nodes[e];
    var a := if 0 <= n.prev < |nodes| then nodes[n.prev := nodes[n.prev].(next := n.next)] else nodes;
    var b := if 0 <= n.next < |nodes| then a[n.next := a[n.next].(prev := n.prev)] else a;
    var c := b[head := b[head].(prev := e)];
    c[e := c[e].(next := head)]
  }

  /** Rewiring keeps the list a list, with e at the front and the others in their order. */
  lemma MovedLinked(nodes: seq<Node>, order: seq<nat>, head: nat, tail: nat, k: nat)
    requires Linked(nodes, order, head, tail) && 0 < k < SIZE
    ensures var e := order[k];
      Linked(Moved(nodes, head, e), ToFront<nat>(order, k), e, if nodes[e].next == NIL then order[k - 1] else tail)
  {
    var e := order[k];
    hide Moved;
    var order', nodes' := ToFront<nat>(order, k), Moved(nodes, head, e);
    MovedNodes(nodes, order, head, tail, k);
    OrderMoved(order, k);
    TailMoved(nodes, order, head, tail, k);
    forall i | 0 <= i < SIZE
      ensures nodes'[order'[i]].next == if i + 1 < SIZE then order'[i + 1] else NIL
    {
      NextAfterMove(nodes, order, head, tail, k, i);
    }
    forall i | 0 < i < SIZE
      ensures nodes'[order'[i]].prev == order'[i - 1]
    {
      PrevAfterMove(nodes, order, head, tail, k, i);
    }
    IsLinked(nodes', order', e, if nodes[e].next == NIL then order[k - 1] else tail);
  }

  lemma IsLinked(nodes: seq<Node>, order: seq<nat>, head: nat, tail: nat)
    requires |nodes| == |order| == SIZE && order[0] == head && order[SIZE - 1] == tail
    requires forall i :: 0 <= i < SIZE ==> order[i] < SIZE
    requires forall i, j :: 0 <= i < j < SIZE ==> order[i] != order[j]
    requires forall i :: 0 <= i < SIZE ==> nodes[order[i]].next == if i + 1 < SIZE then order[i + 1] else NIL
    requires forall i :: 0 < i < SIZE ==> nodes[order[i]].prev == order[i - 1]
    ensures Linked(nodes, order, head, tail)
  {
  }

  lemma OrderMoved(order: seq<nat>, k: nat)
    requires |order| == SIZE && k < SIZE && forall i :: 0 <= i < SIZE ==> order[i] < SIZE
    requires forall i, j :: 0 <= i < j < SIZE ==> order[i] != order[j]
    ensures var order' := ToFront<nat>(order, k);
      && |order'| == SIZE && (forall i :: 0 <= i < SIZE ==> order'[i] < SIZE) && order'[0] == order[k]
      && forall i, j :: 0 <= i < j < SIZE ==> order'[i] != order'[j]
  {
    var order' := ToFront<nat>(order, k);
    forall i, j | 0 <= i < j < SIZE
      ensures order'[i] != order'[j]
    {
      var a, b := if i == 0 then k else if i <= k then i - 1 else i, if j <= k then j - 1 else j;
      assert order'[i] == order[a] && order'[j] == order[b] && a != b;
    }
  }

  lemma TailMoved(nodes: seq<Node>, order: seq<nat>, head: nat, tail: nat, k: nat)
    requires Linked(nodes, order, head, tail) && 0 < k < SIZE
    ensures |ToFront<nat>(order, k)| == SIZE
    ensures ToFront<nat>(order, k)[SIZE - 1] == if nodes[order[k]].next == NIL then order[k - 1] else tail
  {
    hide Linked;
    LinkAt(nodes, order, head, tail, k);
  }

  lemma NextAfterMove(nodes: seq<Node>, order: seq<nat>, head: nat, tail: nat, k: nat, i: nat)
    requires Linked(nodes, order, head, tail) && 0 < k < SIZE && i < SIZE
    ensures var nodes', order' := Moved(nodes, head, order[k]), ToFront<nat>(order, k);
      order'[i] < |nodes'| && nodes'[order'[i]].next == if i + 1 < SIZE then order'[i + 1] else NIL
  {
    hide Moved, Linked;
    MovedNodes(nodes, order, head, tail, k);
    var a := if i == 0 then k else if i <= k then i - 1 else i;
    LinkAt(nodes, order, head, tail, a);
    LinkAt(nodes, order, head, tail, k);
    assert ToFront<nat>(order, k)[i] == order[a];
    if i + 1 < SIZE {
      var b := if i + 1 <= k then i else i + 1;
      assert ToFront<nat>(order, k)[i + 1] == order[b];
    }
  }

  lemma PrevAfterMove(nodes: seq<Node>, order: seq<nat>, head: nat, tail: nat, k: nat, i: nat)
    requires Linked(nodes, order, head, tail) && 0 < k < SIZE && 0 < i < SIZE
    ensures var nodes', order' := Moved(nodes, head, order[k]), ToFront<nat>(order, k);
      order'[i] < |nodes'| && nodes'[order'[i]].prev == order'[i - 1]
  {
    hide Moved, Linked;
    MovedNodes(nodes, order, head, tail, k);
    var a := if i <= k then i - 1 else i;
    LinkAt(nodes, order, head, tail, a);
    assert ToFront<nat>(order, k)[i] == order[a];
    var b := if i == 1 then k else if i - 1 <= k then i - 2 else i - 1;
    assert ToFront<nat>(order, k)[i - 1] == order[b];
  }

  /** The links of each entry after the move. */
  lemma MovedNodes(nodes: seq<Node>, order: seq<nat>, head: nat, tail: nat, k: nat)
    requires Linked(nodes, order, head, tail) && 0 < k < SIZE
    ensures var nodes' := Moved(nodes, head, order[k]);
      && |nodes'| == SIZE
      && forall i :: 0 <= i < SIZE ==>
           && nodes'[order[i]].id == nodes[order[i]].id && nodes'[order[i]].text == nodes[order[i]].text
           && nodes'[order[i]].next == (if i == k then head else if i == k - 1 then nodes[order[k]].next
                                        else nodes[order[i]].next)
           && nodes'[order[i]].prev == (if i == 0 then order[k] else if i == k + 1 then order[k - 1]
                                        else nodes[order[i]].prev)
  {
    var n := nodes[order[k]];
    assert n.prev == order[k - 1] && n.next == if k + 1 < SIZE then order[k + 1] else NIL;
    forall i | 0 <= i < SIZE
      ensures order[i] == order[k] <==> i == k
      ensures order[i] == n.prev <==> i == k - 1
      ensures order[i] == n.next <==> i == k + 1
      ensures order[i] == head <==> i == 0
    {
    }
  }

  lemma MovedCells(nodes: seq<Node>, order: seq<nat>, head: nat, tail: nat, k: nat)
    requires Linked(nodes, order, head, tail) && 0 < k < SIZE
    ensures Linked(Moved(nodes, head, order[k]), ToFront<nat>(order, k), order[k],
                   if nodes[order[k]].next == NIL then order[k - 1] else tail)
    ensures Cells(Moved(nodes, head, order[k]), ToFront<nat>(order, k)) == ToFront<Cell>(Cells(nodes, order), k)
  {
    hide Moved;
    MovedLinked(nodes, order, head, tail, k);
    MovedNodes(nodes, order, head, tail, k);
    var a, b := Cells(Moved(nodes, head, order[k]), ToFront<nat>(order, k)), ToFront<Cell>(Cells(nodes, order), k);
    forall i | 0 <= i < SIZE
      ensures a[i] == b[i]
    {
      var j := if i == 0 then k else if i <= k then i - 1 else i;
      assert ToFront<nat>(order, k)[i] == order[j];
      assert b[i] == Cells(nodes, order)[j];
    }
  }

  class LruList {
    var mostRecent: nat
    var lestRecent: nat
    const entries: array<Node>
    ghost var order: seq<nat>

    ghost predicate Valid()
      reads this, entries
    {
      Linked(entries[..], order, mostRecent, lestRecent)
    }

    ghost function Contents(): (cells: seq<Cell>)
      requires Valid()
      reads this, entries
      ensures |cells| == SIZE
    {
      Cells(entries[..], order)
    }

    constructor InitList()
      ensures Valid() && fresh(entries) && Contents() == seq(SIZE, _ => EMPTY)
    {
      entries := new Node[SIZE](i =>
        Node(if i == 0 then NIL else i - 1, if i + 1 < SIZE then i + 1 else NIL, 0, NoText));
      mostRecent, lestRecent := 0, SIZE - 1;
      order := seq(SIZE, (i: nat) => i);
    }

    /** Moves an entry to the front of the list; k is its place there. */
    method MakeMostRecent(e: nat, ghost k: nat)
      requires Valid() && k < SIZE && order[k] == e
      modifies this, entries
      ensures Valid() && Contents() == ToFront<Cell>(old(Contents()), k)
    {
      if mostRecent == e {
        assert k == 0;
        assert ToFront(Contents(), 0) == Contents();
        return;
      }
      assert k > 0;
      hide Linked, ToFront, Moved, Cells;
      ghost var nodes, head, tail := entries[..], mostRecent, lestRecent;
      MovedCells(nodes, order, head, tail, k);
      Links(nodes, order, head, tail, k);
      Rewired(nodes, head, e);
      var prev, next := entries[e].prev, entries[e].next;
      if prev != NIL {
        entries[prev] := entries[prev].(next := next);
      }
      if next != NIL {
        entries[next] := entries[next].(prev := prev);
      } else {
        lestRecent := prev;
      }
      entries[mostRecent] := entries[mostRecent].(prev := e);
      entries[e] := entries[e].(next := mostRecent);
      mostRecent := e;
      order := ToFront<nat>(order, k);
      assert entries[..] == Moved(nodes, head, e);
    }

    /** Follows the list from the front to the first entry with the id; k is its place. */
    method Search(id: nat) returns (cursor: int, ghost k: nat)
      requires Valid()
      ensures cursor == NIL || 0 <= cursor < entries.Length
      ensures k <= SIZE && |order| == SIZE && cursor == if k < SIZE then order[k] else NIL
      ensures k < SIZE ==> Contents()[k] == Cell(entries[cursor].id, entries[cursor].text) && entries[cursor].id == id
      ensures forall i :: 0 <= i < k ==> Contents()[i].id != id
      ensures lestRecent < entries.Length && Contents()[SIZE - 1].text == entries[lestRecent].text
    {
      hide Linked, Cells;
      cursor, k := mostRecent, 0;
      OnList(entries[..], order, mostRecent, lestRecent, 0);
      OnList(entries[..], order, mostRecent, lestRecent, SIZE - 1);
      while cursor != NIL && entries[cursor].id != id
        invariant k <= SIZE && cursor == if k < SIZE then order[k] else NIL
        invariant forall i :: 0 <= i < k ==> Contents()[i].id != id
        decreases SIZE - k
      {
        OnList(entries[..], order, mostRecent, lestRecent, k);
        cursor := entries[cursor].next;
        k := k + 1;
      }
      if cursor != NIL {
        OnList(entries[..], order, mostRecent, lestRecent, k);
      }
    }

    /** Gives the least recent entry to an id and makes it the most recent one. */
    method Reuse(id: nat, text: Text)
      requires Valid()
      modifies this, entries
      ensures Valid() && Contents() == ToFront<Cell>(old(Contents())[SIZE - 1 := Cell(id, text)], SIZE - 1)
    {
      hide Linked, Cells, ToFront;
      var last := lestRecent;
      OnList(entries[..], order, mostRecent, lestRecent, SIZE - 1);
      Replaced(entries[..], order, mostRecent, last, id, text);
      ghost var nodes := entries[..];
      entries[last] := entries[last].(id := id, text := text);
      assert entries[..] == nodes[last := nodes[last].(id := id, text := text)];
      MakeMostRecent(last, SIZE - 1);
    }
  }

  /** The entry at place k, as the cursor meets it. */
  lemma OnList(nodes: seq<Node>, order: seq<nat>, head: nat, tail: nat, k: nat)
    requires Linked(nodes, order, head, tail) && k < SIZE
    ensures |nodes| == |order| == SIZE && order[k] < SIZE && order[0] == head && order[SIZE - 1] == tail
    ensures nodes[order[k]].next == if k + 1 < SIZE then order[k + 1] else NIL
    ensures forall i :: 0 <= i < SIZE ==> order[i] < SIZE
    ensures Cells(nodes, order)[k] == Cell(nodes[order[k]].id, nodes[order[k]].text)
  {
  }

  /** Giving the last entry a new id and string leaves the list alone. */
  lemma Replaced(nodes: seq<Node>, order: seq<nat>, head: nat, tail: nat, id: nat, text: Text)
    requires Linked(nodes, order, head, tail)
    ensures tail < |nodes| && var nodes' := nodes[tail := nodes[tail].(id := id, text := text)];
      Linked(nodes', order, head, tail) && Cells(nodes', order) == Cells(nodes, order)[SIZE - 1 := Cell(id, text)]
  {
  }

  lemma Links(nodes: seq<Node>, order: seq<nat>, head: nat, tail: nat, k: nat)
    requires Linked(nodes, order, head, tail) && 0 < k < SIZE
    ensures |nodes| == SIZE && head < SIZE && order[k] < SIZE && nodes[order[k]].prev == order[k - 1] < SIZE
    ensures nodes[order[k]].next == NIL || 0 <= nodes[order[k]].next < SIZE
  {
    assert nodes[order[k]].next == if k + 1 < SIZE then order[k + 1] else NIL;
    assert k + 1 < SIZE ==> order[k + 1] < SIZE;
  }

  lemma Rewired(nodes: seq<Node>, head: nat, e: nat)
    requires head < |nodes| && e < |nodes|
    ensures var n := nodes[e];
      && (0 <= n.prev < |nodes| && (n.next == NIL || 0 <= n.next < |nodes|) ==>
            var a := nodes[n.prev := nodes[n.prev].(next := n.next)];
            var b := if n.next != NIL then a[n.next := a[n.next].(prev := n.prev)] else a;
            var c := b[head := b[head].(prev := e)];
            Moved(nodes, head, e) == c[e := c[e].(next := head)])
  {
  }
}
