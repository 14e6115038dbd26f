/** The concurrent assignment of the strings of a batch to carriers. */
module Assignment {

  /** The work of one call: for each string its hash code, and the number of carriers. */
  datatype Task = Task(hashes: seq<nat>, n: nat)

  function CarrierOf(t: Task, i: nat): (c: nat)
    requires t.n > 0 && i < |t.hashes|
    ensures c < t.n
  {
    t.hashes[i] % t.n
  }

  // ----- chunks: the strings are cut into n equal ones for the workers; the calling thread
  // ----- takes what is left as worker n

  function Chunk(t: Task): nat { |t.hashes| / (t.n + 1) }

  function Start(t: Task, w: nat): nat {
    if w <= t.n then w * Chunk(t) else |t.hashes|
  }

  /** The worker in whose chunk string i lies. */
  function WorkerOf(t: Task, i: nat): (w: nat)
    requires t.n > 0 && i < |t.hashes|
    ensures w <= t.n
  {
    if Chunk(t) == 0 || i / Chunk(t) >= t.n then t.n else i / Chunk(t)
  }

  /** Every string lies in the chunk of its worker and in no other. */
  lemma ChunksPartition(t: Task, i: nat, w: nat)
    requires t.n > 0 && i < |t.hashes| && w <= t.n
    ensures Start(t, w) <= i < Start(t, w + 1) <==> w == WorkerOf(t, i)
  {
    ChunksFit(t);
    if Chunk(t) > 0 {
      if w < t.n {
        Between(i, Chunk(t), w);
      } else {
        AtLeast(i, Chunk(t), t.n);
      }
    }
  }

  /** Every worker but the last one has the same number of strings, and that is as large as it can be
      for one more worker than there are carriers. */
  lemma ChunksEven(t: Task, w: nat)
    requires t.n > 0 && w < t.n
    ensures var k := Start(t, w + 1) - Start(t, w);
      0 <= k && k * (t.n + 1) <= |t.hashes| < (k + 1) * (t.n + 1)
  {
    var c := Chunk(t);
    Times(w, w, c);
    AtLeast(|t.hashes|, t.n + 1, c);
    AtLeast(|t.hashes|, t.n + 1, c + 1);
  }

  lemma Between(i: nat, c: nat, w: nat)
    requires c > 0
    ensures w * c <= i < (w + 1) * c <==> w == i / c
  {
    AtLeast(i, c, w);
    AtLeast(i, c, w + 1);
  }

  lemma AtLeast(i: nat, c: nat, w: nat)
    requires c > 0
    ensures w * c <= i <==> w <= i / c
  {
    var q := i / c;
    assert q * c <= i < q * c + c;
    if w <= q {
      Times(w, q, c);
    } else {
      Times(q + 1, w, c);
      Times(q, q, c);
    }
  }

  lemma Times(a: nat, b: nat, c: nat)
    requires a <= b
    ensures a * c <= b * c
    ensures (a + 1) * c == a * c + c
  {
  }

  lemma ChunksFit(t: Task)
    requires t.n > 0
    ensures t.n * Chunk(t) <= |t.hashes|
  {
    var m, c := t.n + 1, Chunk(t);
    assert m * c <= |t.hashes|;
    assert m * c == t.n * c + c;
  }

  lemma StartsGrow(t: Task, w: nat)
    requires t.n > 0 && w <= t.n
    ensures Start(t, w) <= Start(t, w + 1) <= |t.hashes|
  {
    ChunksFit(t);
    if w < t.n { Times(w + 1, t.n, Chunk(t)); }
    Times(w, w + 1, Chunk(t));
  }

  // ----- counting

  ghost function Of(t: Task, done: set<nat>, c: nat): set<nat>
    requires t.n > 0 && forall i :: i in done ==> i < |t.hashes|
  {
    set i | i in done && CarrierOf(t, i) == c
  }

  lemma OneMore(t: Task, done: set<nat>, i: nat)
    requires t.n > 0 && i < |t.hashes| && i !in done && forall k :: k in done ==> k < |t.hashes|
    ensures var c := CarrierOf(t, i);
      && |Of(t, done + {i}, c)| == |Of(t, done, c)| + 1
      && forall d :: 0 <= d < t.n && d != c ==> Of(t, done + {i}, d) == Of(t, done, d)
  {
    assert Of(t, done + {i}, CarrierOf(t, i)) == Of(t, done, CarrierOf(t, i)) + {i};
  }

  ghost function Under(t: Task, done: set<nat>, k: nat): set<nat>
    requires t.n > 0 && forall i :: i in done ==> i < |t.hashes|
  {
    set i | i in done && CarrierOf(t, i) < k
  }

  /** The first n numbers. */
  ghost function All(n: nat): (s: set<nat>)
    ensures |s| == n && forall i :: i in s <==> 0 <= i < n
  {
    if n == 0 then {} else All(n - 1) + {n - 1}
  }

  function Sum(counters: seq<nat>): nat {
    if counters == [] then 0 else Sum(counters[..|counters| - 1]) + counters[|counters| - 1]
  }

  /** The carriers' shares add up. */
  lemma {:induction false} SharesAddUp(t: Task, done: set<nat>, counters: seq<nat>)
    requires t.n > 0 && |counters| <= t.n && forall i :: i in done ==> i < |t.hashes|
    requires forall c :: 0 <= c < |counters| ==> counters[c] == |Of(t, done, c)|
    ensures Sum(counters) == |Under(t, done, |counters|)|
    decreases |counters|
  {
    var below := Under(t, done, |counters|);
    if counters == [] {
      assert below == {};
    } else {
      var n := |counters| - 1;
      SharesAddUp(t, done, counters[..n]);
      var less := Under(t, done, n);
      assert below == less + Of(t, done, n) && less !! Of(t, done, n);
    }
  }

  // ----- the workers

  /** Worker w has strings left. */
  predicate Busy(t: Task, next: seq<nat>, w: nat)
    requires t.n > 0 && |next| == t.n + 1 && w <= t.n
  {
    next[w] < Start(t, w + 1)
  }

  /** How far each worker has come: next[w] is the string it is at, half[w] whether it has already
      added the carrier to the mapping but not yet counted the string. */
  ghost predicate Progress(t: Task, next: seq<nat>, half: seq<bool>) {
    && t.n > 0 && |next| == |half| == t.n + 1
    && (forall w :: 0 <= w <= t.n ==> Start(t, w) <= next[w] <= Start(t, w + 1))
    && (forall w :: 0 <= w <= t.n && half[w] ==> next[w] < Start(t, w + 1))
  }

  /** The counters hold how many of the strings in counted each carrier has. */
  ghost predicate Counted(t: Task, next: seq<nat>, half: seq<bool>, counters: seq<nat>, counted: set<nat>)
    requires Progress(t, next, half)
  {
    && (forall i :: i in counted <==> 0 <= i < |t.hashes| && i < next[WorkerOf(t, i)])
    && |counters| == t.n && forall c :: 0 <= c < t.n ==> counters[c] == |Of(t, counted, c)|
  }

  ghost predicate Mapped(t: Task, next: seq<nat>, half: seq<bool>, mapping: seq<nat>)
    requires Progress(t, next, half)
  {
    && |mapping| == |t.hashes|
    && forall i :: 0 <= i < |mapping| ==>
         var w := WorkerOf(t, i);
         mapping[i] == if i < next[w] || (half[w] && i == next[w]) then CarrierOf(t, i) else 0
  }

  lemma NothingDone(t: Task)
    requires t.n > 0
    ensures var next, half := seq(t.n + 1, (w: nat) => Start(t, w)), seq(t.n + 1, _ => false);
      && Progress(t, next, half) && Counted(t, next, half, seq(t.n, _ => 0), {})
      && Mapped(t, next, half, seq(|t.hashes|, _ => 0))
  {
    hide WorkerOf, CarrierOf, Start;
    var next := seq(t.n + 1, (w: nat) => Start(t, w));
    forall w | 0 <= w <= t.n
      ensures Start(t, w) <= Start(t, w + 1)
    {
      StartsGrow(t, w);
    }
    forall i | 0 <= i < |t.hashes|
      ensures next[WorkerOf(t, i)] <= i
    {
      ChunksPartition(t, i, WorkerOf(t, i));
    }
    forall c | 0 <= c < t.n
      ensures |Of(t, {}, c)| == 0
    {
      assert Of(t, {}, c) == {};
    }
  }

  /** Adding the carrier to the mapping. */
  lemma MappingAdded(t: Task, next: seq<nat>, half: seq<bool>, mapping: seq<nat>, counters: seq<nat>,
      counted: set<nat>, w: nat)
    requires Progress(t, next, half) && Counted(t, next, half, counters, counted) && Mapped(t, next, half, mapping)
    requires w <= t.n && next[w] < Start(t, w + 1) && !half[w]
    ensures next[w] < |mapping| == |t.hashes| && |counters| == t.n
    ensures Progress(t, next, half[w := true]) && Counted(t, next, half[w := true], counters, counted)
    ensures Mapped(t, next, half[w := true], mapping[next[w] := mapping[next[w]] + CarrierOf(t, next[w])])
  {
    hide Start, WorkerOf, CarrierOf, Of;
    StartsGrow(t, w);
    ChunksPartition(t, next[w], w);
  }

  /** Counting the string. */
  lemma CounterAdded(t: Task, next: seq<nat>, half: seq<bool>, mapping: seq<nat>, counters: seq<nat>,
      counted: set<nat>, w: nat)
    requires Progress(t, next, half) && Counted(t, next, half, counters, counted) && Mapped(t, next, half, mapping)
    requires w <= t.n && half[w]
    ensures next[w] < |mapping| == |t.hashes| && |counters| == t.n
    ensures var next', half', c := next[w := next[w] + 1], half[w := false], CarrierOf(t, next[w]);
      && Progress(t, next', half') && Counted(t, next', half', counters[c := counters[c] + 1], counted + {next[w]})
      && Mapped(t, next', half', mapping)
  {
    hide Start, WorkerOf, CarrierOf, Of;
    StartsGrow(t, w);
    ChunksPartition(t, next[w], w);
    OneMore(t, counted, next[w]);
  }

  /** All strings are mapped and counted when no worker has anything left. */
  lemma AllDone(t: Task, next: seq<nat>, half: seq<bool>, mapping: seq<nat>, counters: seq<nat>, counted: set<nat>)
    requires Progress(t, next, half) && Counted(t, next, half, counters, counted) && Mapped(t, next, half, mapping)
    requires forall w :: 0 <= w <= t.n ==> !Busy(t, next, w)
    ensures |mapping| == |t.hashes| && forall i :: 0 <= i < |mapping| ==> mapping[i] == CarrierOf(t, i)
    ensures |counters| == t.n && forall c :: 0 <= c < t.n ==> counters[c] == |Of(t, All(|t.hashes|), c)|
    ensures Sum(counters) == |t.hashes|
  {
    hide Start, WorkerOf, CarrierOf, Of, Sum, All;
    forall i | 0 <= i < |t.hashes|
      ensures i < next[WorkerOf(t, i)]
    {
      ChunksPartition(t, i, WorkerOf(t, i));
      assert !Busy(t, next, WorkerOf(t, i));
    }
    assert counted == All(|t.hashes|);
    AllAddUp(t, counters);
  }

  lemma AllAddUp(t: Task, counters: seq<nat>)
    requires t.n > 0 && |counters| == t.n
    requires forall c :: 0 <= c < t.n ==> counters[c] == |Of(t, All(|t.hashes|), c)|
    ensures Sum(counters) == |t.hashes|
  {
    hide Of, Sum, CarrierOf;
    SharesAddUp(t, All(|t.hashes|), counters);
    assert Under(t, All(|t.hashes|), |counters|) == All(|t.hashes|);
  }

  class Workers {
    const task: Task
    var mapping: seq<nat>
    var counters: seq<nat>
    var next: seq<nat>
    var half: seq<bool>
    ghost var counted: set<nat>

    ghost predicate Valid()
      reads this
    {
      && Progress(task, next, half) && Counted(task, next, half, counters, counted) && Mapped(task, next, half, mapping)
    }

    constructor (task: Task)
      requires task.n > 0
      ensures this.task == task && Valid()
    {
      this.task := task;
      mapping := seq(|task.hashes|, _ => 0);
      counters := seq(task.n, _ => 0);
      next := seq(task.n + 1, (w: nat) => Start(task, w));
      half := seq(task.n + 1, _ => false);
      counted := {};
      new;
      NothingDone(task);
    }

    /** One atomic step of worker w: it adds the carrier to the mapping, or it counts the string. */
    method Step(w: nat)
      requires Valid() && w <= task.n && next[w] < Start(task, w + 1)
      modifies this
      ensures Valid() && 0 <= Left(task, next, half, task.n + 1) == old(Left(task, next, half, task.n + 1)) - 1
    {
      hide Counted, Mapped, Left, Start, Of, CarrierOf;
      ghost var next' := next[w := if half[w] then next[w] + 1 else next[w]];
      ghost var half' := half[w := !half[w]];
      StepsShrink(task, next, half, w);
      if half[w] {
        CounterAdded(task, next, half, mapping, counters, counted, w);
        var c := CarrierOf(task, next[w]);
        counters := counters[c := counters[c] + 1];
        counted := counted + {next[w]};
        next := next[w := next[w] + 1];
        half := half[w := false];
      } else {
        MappingAdded(task, next, half, mapping, counters, counted, w);
        mapping := mapping[next[w] := mapping[next[w]] + CarrierOf(task, next[w])];
        half := half[w := true];
      }
      assert next == next' && half == half';
    }

    /** Runs the workers in any interleaving of their steps. */
    method Run()
      requires Valid()
      modifies this
      ensures |mapping| == |task.hashes| && forall i :: 0 <= i < |mapping| ==> mapping[i] == CarrierOf(task, i)
      ensures forall i :: 0 <= i < |mapping| ==> mapping[i] == task.hashes[i] % task.n
      ensures |counters| == task.n
      ensures forall c :: 0 <= c < task.n ==> counters[c] == |set i | 0 <= i < |mapping| && mapping[i] == c|
      ensures Sum(counters) == |task.hashes|
    {
      hide Start, CarrierOf, Of, Left, Counted, Mapped;
      while exists w :: 0 <= w <= task.n && Busy(task, next, w)
        invariant Valid()
        decreases Left(task, next, half, task.n + 1)
      {
        var w :| 0 <= w <= task.n && Busy(task, next, w);
        Step(w);
      }
      AllDone(task, next, half, mapping, counters, counted);
      forall c | 0 <= c < task.n
        ensures counters[c] == |set i | 0 <= i < |mapping| && mapping[i] == c|
      {
        OfAll(task, mapping, c);
      }
      Remainders(task);
    }
  }

  lemma Remainders(t: Task)
    requires t.n > 0
    ensures forall i :: 0 <= i < |t.hashes| ==> CarrierOf(t, i) == t.hashes[i] % t.n
  {
  }

  lemma OfAll(t: Task, mapping: seq<nat>, c: nat)
    requires t.n > 0 && |mapping| == |t.hashes| && forall i :: 0 <= i < |mapping| ==> mapping[i] == CarrierOf(t, i)
    ensures Of(t, All(|t.hashes|), c) == set i | 0 <= i < |mapping| && mapping[i] == c
  {
    hide CarrierOf;
  }

  /** The steps that the first k workers still have to do. */
  ghost function Left(t: Task, next: seq<nat>, half: seq<bool>, k: nat): int
    requires k <= t.n + 1 && |next| == |half| == t.n + 1
    decreases k
  {
    if k == 0 then 0
    else Left(t, next, half, k - 1) + 2 * (Start(t, k) - next[k - 1]) - (if half[k - 1] then 1 else 0)
  }

  lemma {:induction false} LeftPositive(t: Task, next: seq<nat>, half: seq<bool>, k: nat)
    requires k <= t.n + 1 && Progress(t, next, half)
    ensures Left(t, next, half, k) >= 0
    decreases k
  {
    if k > 0 {
      LeftPositive(t, next, half, k - 1);
    }
  }

  lemma StepsShrink(t: Task, next: seq<nat>, half: seq<bool>, w: nat)
    requires w <= t.n && Progress(t, next, half) && next[w] < Start(t, w + 1)
    ensures var next', half' := next[w := if half[w] then next[w] + 1 else next[w]], half[w := !half[w]];
            0 <= Left(t, next', half', t.n + 1) == Left(t, next, half, t.n + 1) - 1
  {
    hide Left, Start;
    var next', half' := next[w := if half[w] then next[w] + 1 else next[w]], half[w := !half[w]];
    LeftPositive(t, next', half', t.n + 1);
    StepShrinks(t, next, half, w, t.n + 1);
  }

  lemma {:induction false} StepShrinks(t: Task, next: seq<nat>, half: seq<bool>, w: nat, k: nat)
    requires w <= t.n && k <= t.n + 1 && |next| == |half| == t.n + 1
    ensures var next' := next[w := if half[w] then next[w] + 1 else next[w]];
            Left(t, next', half[w := !half[w]], k) == Left(t, next, half, k) - (if w < k then 1 else 0)
    decreases k
  {
    if k > 0 {
      StepShrinks(t, next, half, w, k - 1);
    }
  }
}
