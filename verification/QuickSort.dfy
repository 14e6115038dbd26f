/** The index quicksort: it rearranges an array of indices with an explicit stack of ranges. */
module QuickSort {

  /** A range of the array that is still to be sorted, both ends included. */
  datatype Span = Span(l: nat, h: nat)

  /** The pending spans are disjoint, in the array, and have at least two elements each. */
  ghost predicate Pending(spans: seq<Span>, n: nat) {
    && (forall k :: 0 <= k < |spans| ==> spans[k].l < spans[k].h < n)
    && (forall k, m :: 0 <= k < m < |spans| ==> spans[k].h < spans[m].l || spans[m].h < spans[k].l)
  }

  /** The elements of the spans. */
  function Covered(spans: seq<Span>): int
    decreases |spans|
  {
    if spans == [] then 0
    else Covered(spans[..|spans| - 1]) + spans[|spans| - 1].h - spans[|spans| - 1].l + 1
  }

  ghost function Points(l: nat, h: nat): (s: set<nat>)
    requires l <= h
    ensures |s| == h - l && forall i :: i in s <==> l <= i < h
    decreases h - l
  {
    if l == h then {} else Points(l, h - 1) + {h - 1}
  }

  ghost function Union(spans: seq<Span>): (s: set<nat>)
    requires forall k :: 0 <= k < |spans| ==> spans[k].l < spans[k].h
    decreases |spans|
  {
    if spans == [] then {}
    else Union(spans[..|spans| - 1]) + Points(spans[|spans| - 1].l, spans[|spans| - 1].h + 1)
  }

  lemma {:induction false} UnionWhere(spans: seq<Span>, i: nat)
    requires forall k :: 0 <= k < |spans| ==> spans[k].l < spans[k].h
    requires i in Union(spans)
    ensures exists k :: 0 <= k < |spans| && spans[k].l <= i <= spans[k].h
    decreases |spans|
  {
    var n := |spans| - 1;
    if i in Union(spans[..n]) {
      UnionWhere(spans[..n], i);
      var k :| 0 <= k < n && spans[..n][k].l <= i <= spans[..n][k].h;
      assert spans[k].l <= i <= spans[k].h;
    } else {
      assert spans[n].l <= i <= spans[n].h;
    }
  }

  lemma {:induction false} UnionSize(spans: seq<Span>, n: nat)
    requires Pending(spans, n)
    ensures |Union(spans)| == Covered(spans) && 2 * |spans| <= Covered(spans)
    decreases |spans|
  {
    if spans != [] {
      var init, last := spans[..|spans| - 1], spans[|spans| - 1];
      UnionSize(init, n);
      var points := Points(last.l, last.h + 1);
      forall i | i in Union(init)
        ensures i !in points
      {
        UnionWhere(init, i);
        var k :| 0 <= k < |init| && init[k].l <= i <= init[k].h;
        assert spans[k] == init[k];
      }
      assert Union(init) !! points;
    }
  }

  /** Disjoint spans of two or more elements: twice their number fits the array. */
  lemma StackFits(spans: seq<Span>, n: nat)
    requires Pending(spans, n)
    ensures 2 * |spans| <= n
  {
    UnionSize(spans, n);
    forall i | i in Union(spans)
      ensures i in Points(0, n)
    {
      UnionWhere(spans, i);
    }
    Subset(Union(spans), Points(0, n));
  }

  lemma Subset(a: set<nat>, b: set<nat>)
    requires a <= b
    ensures |a| <= |b|
  {
    assert b == a + (b - a);
  }

  ghost function Swapped(s: seq<nat>, i: nat, j: nat): (t: seq<nat>)
    requires i < |s| && j < |s|
    ensures |t| == |s| && t[i] == s[j] && t[j] == s[i]
    ensures forall k :: 0 <= k < |s| && k != i && k != j ==> t[k] == s[k]
  {
    s[i := s[j]][j := s[i]]
  }

  method Swap(a: array<nat>, i: nat, j: nat)
    requires i < a.Length && j < a.Length
    modifies a
    ensures a[..] == Swapped(old(a[..]), i, j)
    ensures multiset(a[..]) == multiset(old(a[..]))
  {
    a[i], a[j] := a[j], a[i];
  }

  /** Any two of the elements are ordered, and the order is transitive on them. */
  ghost predicate TotalOn<T(!new)>(leq: (T, T) -> bool, xs: seq<T>) {
    && (forall x, y :: x in xs && y in xs ==> leq(x, y) || leq(y, x))
    && (forall x, y, z :: x in xs && y in xs && z in xs && leq(x, y) && leq(y, z) ==> leq(x, z))
  }

  /** Puts what is at most the pivot, the last element, in front of it, and nothing else; leq is
      any comparator. What lies outside the span stays, what lies inside stays inside. */
  method Partition(a: array<nat>, leq: (nat, nat) -> bool, l: nat, h: nat) returns (p: int)
    requires l < h < a.Length
    modifies a
    ensures l <= p <= h && multiset(a[..]) == multiset(old(a[..]))
    ensures forall k :: l <= k < p ==> leq(a[k], a[p])
    ensures forall k :: p < k <= h ==> !leq(a[k], a[p])
    ensures Inside(old(a[..]), a[..], l, h)
  {
    hide Inside, Swapped;
    ghost var s := a[..];
    var x := a[h];
    var i: int := l - 1;
    InsideItself(s, l, h);
    for j := l to h
      invariant l - 1 <= i < j && multiset(a[..]) == multiset(s) && Split(a[..], leq, x, l, h, i, j)
      invariant Inside(s, a[..], l, h)
    {
      ghost var t := a[..];
      if leq(a[j], x) {
        i := i + 1;
        Swap(a, i, j);
        InsideSwapped(s, t, l, h, i, j);
      }
    }
    ghost var t := a[..];
    Swap(a, i + 1, h);
    InsideSwapped(s, t, l, h, i + 1, h);
    p := i + 1;
    assert forall k :: 0 <= k < a.Length ==> a[k] == a[..][k];
  }

  /** The places up to i hold elements up to the pivot, those from there to j do not. */
  ghost predicate Split(s: seq<nat>, leq: (nat, nat) -> bool, x: nat, l: nat, h: nat, i: int, j: nat)
    requires l <= h < |s| && i < j <= h
  {
    && s[h] == x
    && (forall k :: l <= k <= i ==> leq(s[k], x))
    && (forall k :: l <= k && i < k < j ==> !leq(s[k], x))
  }

  lemma InsideItself(s: seq<nat>, l: nat, h: nat)
    requires l <= h < |s|
    ensures Inside(s, s, l, h)
  {
    forall k | l <= k <= h
      ensures s[k] in s[l..h + 1]
    {
      assert s[l..h + 1][k - l] == s[k];
    }
  }

  lemma InsideSwapped(s: seq<nat>, t: seq<nat>, l: nat, h: nat, i: nat, j: nat)
    requires l <= h < |s| && Inside(s, t, l, h) && l <= i <= h && l <= j <= h
    ensures Inside(s, Swapped(t, i, j), l, h)
  {
    hide Swapped;
  }

  /** t differs from s in the span only, where it has elements that s has there. */
  ghost predicate Inside(s: seq<nat>, t: seq<nat>, l: nat, h: nat)
    requires l <= h < |s|
  {
    && |t| == |s|
    && (forall k :: 0 <= k < |s| && !(l <= k <= h) ==> t[k] == s[k])
    && (forall k :: l <= k <= h ==> t[k] in s[l..h + 1])
  }

  /** No pending span holds both places. */
  ghost predicate Apart(spans: seq<Span>, i: nat, j: nat) {
    forall k :: 0 <= k < |spans| ==> !(spans[k].l <= i <= spans[k].h && spans[k].l <= j <= spans[k].h)
  }

  /** Elements that no pending span holds both of are in order. */
  ghost predicate InOrder(s: seq<nat>, spans: seq<Span>, leq: (nat, nat) -> bool) {
    forall i, j :: 0 <= i < j < |s| && Apart(spans, i, j) ==> leq(s[i], s[j])
  }

  lemma OrderedSplit(s: seq<nat>, t: seq<nat>, init: seq<Span>, leq: (nat, nat) -> bool, l: nat, h: nat, p: int)
    requires Pending(init + [Span(l, h)], |s|) && l <= p <= h && l < h < |s| && Inside(s, t, l, h)
    requires forall k :: l <= k < p ==> leq(t[k], t[p])
    requires forall k :: p < k <= h ==> !leq(t[k], t[p])
    requires TotalOn(leq, t) && InOrder(s, init + [Span(l, h)], leq)
    ensures var left := if p - 1 > l then [Span(l, p - 1)] else [];
      var right := if p + 1 < h then [Span(p + 1, h)] else [];
      InOrder(t, init + left + right, leq)
  {
    hide Pending;
    var left := if p - 1 > l then [Span(l, p - 1)] else [];
    var right := if p + 1 < h then [Span(p + 1, h)] else [];
    Shrink(init, |s|, l, h);
    forall i, j | 0 <= i < j < |t| && Apart(init + left + right, i, j)
      ensures leq(t[i], t[j])
    {
      ApartParts(init, left, right, i, j);
      if l <= i && j <= h {
        BothInside(t, left, right, leq, l, h, p, i, j);
      } else {
        var i' := if l <= i <= h then Origin(s, t, l, h, i) else i;
        var j' := if l <= j <= h then Origin(s, t, l, h, j) else j;
        StillApart(init, l, h, i, j, i', j');
        assert t[i] == s[i'] && t[j] == s[j'];
      }
    }
  }

  /** Where the element of a place in the span was before. */
  ghost function Origin(s: seq<nat>, t: seq<nat>, l: nat, h: nat, k: nat): (m: nat)
    requires l <= h < |s| && Inside(s, t, l, h) && l <= k <= h
    ensures l <= m <= h && s[m] == t[k]
  {
    var m :| 0 <= m < |s[l..h + 1]| && s[l..h + 1][m] == t[k];
    l + m
  }

  lemma ApartParts(a: seq<Span>, b: seq<Span>, c: seq<Span>, i: nat, j: nat)
    ensures Apart(a + b + c, i, j) <==> Apart(a, i, j) && Apart(b, i, j) && Apart(c, i, j)
  {
    var all := a + b + c;
    forall k | 0 <= k < |a|
      ensures all[k] == a[k]
    {
    }
    forall k | 0 <= k < |b|
      ensures all[|a| + k] == b[k]
    {
    }
    forall k | 0 <= k < |c|
      ensures all[|a| + |b| + k] == c[k]
    {
    }
  }

  lemma BothInside(t: seq<nat>, left: seq<Span>, right: seq<Span>, leq: (nat, nat) -> bool, l: nat, h: nat, p: nat,
      i: nat, j: nat)
    requires l <= i < j <= h < |t| && l <= p <= h && TotalOn(leq, t)
    requires forall k :: l <= k < p ==> leq(t[k], t[p])
    requires forall k :: p < k <= h ==> !leq(t[k], t[p])
    requires left == (if p - 1 > l then [Span(l, p - 1)] else [])
        && right == (if p + 1 < h then [Span(p + 1, h)] else [])
    requires Apart(left, i, j) && Apart(right, i, j)
    ensures leq(t[i], t[j])
  {
    assert t[i] in t && t[j] in t && t[p] in t;
    assert i <= p <= j by {
      if p - 1 > l {
        assert left[0] == Span(l, p - 1);
      }
      if p + 1 < h {
        assert right[0] == Span(p + 1, h);
      }
    }
  }

  lemma StillApart(init: seq<Span>, l: nat, h: nat, i: nat, j: nat, i': nat, j': nat)
    requires i < j && !(l <= i && j <= h) && Apart(init, i, j)
    requires forall k :: 0 <= k < |init| ==> init[k].h < l || h < init[k].l
    requires if l <= i <= h then l <= i' <= h else i' == i
    requires if l <= j <= h then l <= j' <= h else j' == j
    ensures Apart(init + [Span(l, h)], i', j') && i' < j'
  {
  }

  /** Sorts the indices: whatever the comparator answers, the result is a permutation, the
      spans are worked off after finitely many steps, and the stack, which has one cell per
      index, is never overrun; if the comparator orders the indices, they end up in its order. */
  method SortIndices(a: array<nat>, leq: (nat, nat) -> bool)
    modifies a
    ensures multiset(a[..]) == multiset(old(a[..]))
    ensures TotalOn(leq, old(a[..])) ==> forall i, j :: 0 <= i < j < a.Length ==> leq(a[i], a[j])
  {
    hide Covered, Pending, Inside, InOrder, TotalOn, Apart, OnStack;
    var n := a.Length;
    if n <= 1 { return; }
    OneSpan(n);
    var stack := new nat[n];
    ghost var spans := [Span(0, n - 1)];
    stack[0], stack[1] := 0, n - 1;
    var top := 1;
    NothingApart(a[..], leq);
    FirstOnStack(stack[..], 0, n - 1);
    while top >= 0
      invariant top == 2 * |spans| - 1 < n && Pending(spans, n)
      invariant OnStack(stack[..], spans)
      invariant multiset(a[..]) == multiset(old(a[..]))
      invariant TotalOn(leq, old(a[..])) ==> InOrder(a[..], spans, leq)
      decreases Covered(spans)
    {
      var h, l := stack[top], stack[top - 1];
      ghost var init, s := spans[..|spans| - 1], a[..];
      LastSpan(spans, n);
      Popped(stack[..], spans);
      assert stack[..][top] == h && stack[..][top - 1] == l;
      top := top - 2;
      var p := Partition(a, leq, l, h);
      SpanSplit(init, n, l, h, p);
      KeepsOrder(old(a[..]), s, a[..], init, leq, l, h, p);
      spans := init;
      if p - 1 > l {
        Push(stack, spans, top, l, p - 1);
        top := top + 2;
        spans := spans + [Span(l, p - 1)];
      }
      if p + 1 < h {
        Push(stack, spans, top, p + 1, h);
        top := top + 2;
        spans := spans + [Span(p + 1, h)];
      }
    }
    AllInOrder(a[..], leq);
  }

  /** The bounds of the spans lie on the stack, lower bounds first. */
  ghost predicate OnStack(stack: seq<nat>, spans: seq<Span>) {
    && 2 * |spans| <= |stack|
    && forall k :: 0 <= k < |spans| ==> stack[2 * k] == spans[k].l && stack[2 * k + 1] == spans[k].h
  }

  lemma FirstOnStack(stack: seq<nat>, l: nat, h: nat)
    requires |stack| >= 2 && stack[0] == l && stack[1] == h
    ensures OnStack(stack, [Span(l, h)])
  {
  }

  lemma Popped(stack: seq<nat>, spans: seq<Span>)
    requires spans != [] && OnStack(stack, spans)
    ensures 2 * |spans| <= |stack| && OnStack(stack, spans[..|spans| - 1])
    ensures var k := |spans| - 1; spans[k] == Span(stack[2 * k], stack[2 * k + 1])
  {
  }

  /** Puts the bounds of a span on top of those of the others. */
  method Push(stack: array<nat>, ghost spans: seq<Span>, top: int, l: nat, h: nat)
    requires top == 2 * |spans| - 1 && top + 2 < stack.Length && OnStack(stack[..], spans)
    modifies stack
    ensures OnStack(stack[..], spans + [Span(l, h)])
  {
    stack[top + 1], stack[top + 2] := l, h;
  }

  lemma KeepsOrder(r: seq<nat>, s: seq<nat>, t: seq<nat>, init: seq<Span>, leq: (nat, nat) -> bool, l: nat, h: nat,
      p: int)
    requires Pending(init + [Span(l, h)], |s|) && l <= p <= h && l < h < |s| && Inside(s, t, l, h)
    requires forall k :: l <= k < p ==> leq(t[k], t[p])
    requires forall k :: p < k <= h ==> !leq(t[k], t[p])
    requires multiset(r) == multiset(t) && (TotalOn(leq, r) ==> InOrder(s, init + [Span(l, h)], leq))
    ensures var left := if p - 1 > l then [Span(l, p - 1)] else [];
      var right := if p + 1 < h then [Span(p + 1, h)] else [];
      TotalOn(leq, r) ==> InOrder(t, init + left + right, leq)
  {
    hide TotalOn, InOrder, Pending, Inside;
    if TotalOn(leq, r) {
      SameTotal(leq, r, t);
      OrderedSplit(s, t, init, leq, l, h, p);
    }
  }

  lemma NothingApart(s: seq<nat>, leq: (nat, nat) -> bool)
    requires s != []
    ensures InOrder(s, [Span(0, |s| - 1)], leq)
  {
    var spans := [Span(0, |s| - 1)];
    forall i: nat, j: nat | i < j < |s|
      ensures !Apart(spans, i, j)
    {
      assert spans[0].l <= i <= spans[0].h;
    }
  }

  lemma AllInOrder(s: seq<nat>, leq: (nat, nat) -> bool)
    ensures InOrder(s, [], leq) ==> forall i, j :: 0 <= i < j < |s| ==> leq(s[i], s[j])
  {
    assert forall i: nat, j: nat :: Apart([], i, j);
  }

  lemma SameTotal(leq: (nat, nat) -> bool, s: seq<nat>, t: seq<nat>)
    requires TotalOn(leq, s) && multiset(s) == multiset(t)
    ensures TotalOn(leq, t)
  {
    assert forall x :: x in t ==> x in multiset(t);
    assert forall x :: x in multiset(s) ==> x in s;
  }

  lemma LastSpan(spans: seq<Span>, n: nat)
    requires Pending(spans, n) && spans != []
    ensures var last := spans[|spans| - 1];
      spans == spans[..|spans| - 1] + [Span(last.l, last.h)] && last.l < last.h < n
  {
  }

  /** A span gives way to the parts on both sides of the pivot. */
  lemma SpanSplit(init: seq<Span>, n: nat, l: nat, h: nat, p: int)
    requires Pending(init + [Span(l, h)], n) && l <= p <= h
    ensures var left := if p - 1 > l then [Span(l, p - 1)] else [];
      var right := if p + 1 < h then [Span(p + 1, h)] else [];
      && Pending(init + left + right, n) && 2 * |init + left| <= n && 2 * |init + left + right| <= n
      && 0 <= Covered(init + left + right) < Covered(init + [Span(l, h)])
      && init + [] == init && (init + left) + [] == init + left
  {
    hide Covered, Pending, Union;
    Shrink(init, n, l, h);
    WholeSpan(init, n, l, h);
    UnionSize(init, n);
    CoveredMore(init, Span(l, h));
    StackFits(init, n);
    if p - 1 > l {
      Smaller(init, n, l, h, l, p - 1);
      CoveredMore(init, Span(l, p - 1));
      StackFits(init + [Span(l, p - 1)], n);
      if p + 1 < h {
        Beside(init, n, l, h, p);
        CoveredMore(init + [Span(l, p - 1)], Span(p + 1, h));
        StackFits(init + [Span(l, p - 1)] + [Span(p + 1, h)], n);
      }
    } else if p + 1 < h {
      Smaller(init, n, l, h, p + 1, h);
      CoveredMore(init, Span(p + 1, h));
      StackFits(init + [Span(p + 1, h)], n);
    }
    var left := if p - 1 > l then [Span(l, p - 1)] else [];
    assert init + [] == init && init + left + [] == init + left;
  }

  lemma WholeSpan(init: seq<Span>, n: nat, l: nat, h: nat)
    requires Pending(init + [Span(l, h)], n)
    ensures l < h < n
  {
    assert (init + [Span(l, h)])[|init|] == Span(l, h);
  }

  lemma OneSpan(n: nat)
    requires n > 1
    ensures Pending([Span(0, n - 1)], n)
  {
  }

  lemma CoveredMore(spans: seq<Span>, s: Span)
    ensures Covered(spans + [s]) == Covered(spans) + s.h - s.l + 1
  {
    assert (spans + [s])[..|spans|] == spans;
  }

  lemma Shrink(init: seq<Span>, n: nat, l: nat, h: nat)
    requires Pending(init + [Span(l, h)], n)
    ensures Pending(init, n) && forall k :: 0 <= k < |init| ==> init[k].h < l || h < init[k].l
  {
    var t := init + [Span(l, h)];
    assert t[|init|] == Span(l, h) && forall k :: 0 <= k < |init| ==> t[k] == init[k];
  }

  lemma Smaller(init: seq<Span>, n: nat, l: nat, h: nat, l': nat, h': nat)
    requires Pending(init + [Span(l, h)], n) && l <= l' < h' <= h
    ensures Pending(init + [Span(l', h')], n)
  {
    Shrink(init, n, l, h);
    assert (init + [Span(l, h)])[|init|] == Span(l, h);
  }

  lemma Beside(init: seq<Span>, n: nat, l: nat, h: nat, p: int)
    requires Pending(init + [Span(l, h)], n) && l < p - 1 && p + 1 < h
    ensures Pending(init + [Span(l, p - 1)] + [Span(p + 1, h)], n)
  {
    Shrink(init, n, l, h);
    assert (init + [Span(l, h)])[|init|] == Span(l, h);
  }
}
