/** Spreading a batch over carriers and finding each element's place in its carrier's share. */
module Scatter {

  /** How many of the first n elements go to carrier c. */
  function Rank(carriers: seq<nat>, c: nat, n: nat): (r: nat)
    requires n <= |carriers|
    ensures r <= n
    decreases n
  {
    if n == 0 then 0 else Rank(carriers, c, n - 1) + (if carriers[n - 1] == c then 1 else 0)
  }

  /** Those of the first n elements that go to carrier c, in order. */
  function Share<T>(xs: seq<T>, carriers: seq<nat>, c: nat, n: nat): (share: seq<T>)
    requires n <= |xs| == |carriers|
    ensures |share| == Rank(carriers, c, n)
    decreases n
  {
    if n == 0 then []
    else Share(xs, carriers, c, n - 1) + (if carriers[n - 1] == c then [xs[n - 1]] else [])
  }

  /** Element i lies in its carrier's share behind those that went there before it. */
  lemma {:induction false} ShareAt<T>(xs: seq<T>, carriers: seq<nat>, n: nat, i: nat)
    requires i < n <= |xs| == |carriers|
    ensures Rank(carriers, carriers[i], i) < Rank(carriers, carriers[i], n)
    ensures Share(xs, carriers, carriers[i], n)[Rank(carriers, carriers[i], i)] == xs[i]
    decreases n
  {
    if i < n - 1 {
      ShareAt(xs, carriers, n - 1, i);
    }
  }

  /** A share holds nothing but its carrier's elements. */
  lemma {:induction false} ShareHolds<T>(xs: seq<T>, carriers: seq<nat>, c: nat, n: nat, x: T)
    requires n <= |xs| == |carriers|
    ensures x in Share(xs, carriers, c, n) <==> exists i :: 0 <= i < n && carriers[i] == c && xs[i] == x
    decreases n
  {
    if n > 0 {
      ShareHolds(xs, carriers, c, n - 1, x);
      var share := Share(xs, carriers, c, n - 1);
      if carriers[n - 1] == c {
        assert Share(xs, carriers, c, n) == share + [xs[n - 1]];
        assert x in Share(xs, carriers, c, n) <==> x in share || x == xs[n - 1];
      } else {
        assert Share(xs, carriers, c, n) == share;
      }
    }
  }

  /** Every carrier's list is its share of the first n elements. */
  ghost predicate Shared<T>(work: seq<seq<T>>, xs: seq<T>, carriers: seq<nat>, n: nat)
    requires n <= |xs| == |carriers|
  {
    forall c :: 0 <= c < |work| ==> work[c] == Share(xs, carriers, c, n)
  }

  lemma SharedMore<T>(work: seq<seq<T>>, xs: seq<T>, carriers: seq<nat>, n: nat)
    requires n < |xs| == |carriers| && Shared(work, xs, carriers, n) && carriers[n] < |work|
    ensures Shared(work[carriers[n] := work[carriers[n]] + [xs[n]]], xs, carriers, n + 1)
  {
  }

  /** Pushes each element onto its carrier's list and notes its place there. */
  method Spread<T>(xs: seq<T>, carriers: seq<nat>, n: nat) returns (work: seq<seq<T>>, places: seq<nat>)
    requires |xs| == |carriers| && forall i :: 0 <= i < |xs| ==> carriers[i] < n
    ensures |work| == n && forall c :: 0 <= c < n ==> work[c] == Share(xs, carriers, c, |xs|)
    ensures |places| == |xs| && forall i :: 0 <= i < |xs| ==> places[i] == Rank(carriers, carriers[i], i)
  {
    work, places := seq(n, _ => []), [];
    for i := 0 to |xs|
      invariant |work| == n && Shared(work, xs, carriers, i)
      invariant |places| == i && forall k :: 0 <= k < i ==> places[k] == Rank(carriers, carriers[k], k)
    {
      var c := carriers[i];
      places := places + [|work[c]|];
      SharedMore(work, xs, carriers, i);
      work := work[c := work[c] + [xs[i]]];
    }
  }

  // ----- threads that work off their lists

  /** The elements the first k threads have not reached. */
  ghost function Pending<T>(work: seq<seq<T>>, at: seq<nat>, k: nat): int
    requires k <= |work| == |at|
    decreases k
  {
    if k == 0 then 0 else Pending(work, at, k - 1) + |work[k - 1]| - at[k - 1]
  }

  lemma {:induction false} PendingPositive<T>(work: seq<seq<T>>, at: seq<nat>, k: nat)
    requires k <= |work| == |at| && forall c :: 0 <= c < |at| ==> at[c] <= |work[c]|
    ensures Pending(work, at, k) >= 0
    decreases k
  {
    if k > 0 {
      PendingPositive(work, at, k - 1);
    }
  }

  lemma {:induction false} PendingShrinks<T>(work: seq<seq<T>>, at: seq<nat>, c: nat, k: nat)
    requires k <= |work| == |at| && c < |at|
    ensures Pending(work, at[c := at[c] + 1], k) == Pending(work, at, k) - (if c < k then 1 else 0)
    decreases k
  {
    if k > 0 {
      PendingShrinks(work, at, c, k - 1);
    }
  }

  // ----- counting over shares

  /** How many are false. */
  function Misses(found: seq<bool>): nat {
    if found == [] then 0 else Misses(found[..|found| - 1]) + (if found[|found| - 1] then 0 else 1)
  }

  /** The places that are false. */
  ghost function Missed(found: seq<bool>): set<nat> { set i | 0 <= i < |found| && !found[i] }

  lemma {:induction false} MissesCount(found: seq<bool>)
    ensures Misses(found) == |Missed(found)|
    decreases |found|
  {
    if found == [] {
      assert Missed(found) == {};
    } else {
      var n := |found| - 1;
      MissesCount(found[..n]);
      assert Missed(found) == Missed(found[..n]) + (if found[n] then {} else {n});
    }
  }

  /** The misses in the shares of the first k carriers. */
  function ShareMisses(found: seq<bool>, carriers: seq<nat>, n: nat, k: nat): nat
    requires n <= |found| == |carriers|
    decreases k
  {
    if k == 0 then 0 else ShareMisses(found, carriers, n, k - 1) + Misses(Share(found, carriers, k - 1, n))
  }

  lemma {:induction false} OneMoreMiss(found: seq<bool>, carriers: seq<nat>, n: nat, k: nat)
    requires 0 < n <= |found| == |carriers|
    ensures ShareMisses(found, carriers, n, k)
            == ShareMisses(found, carriers, n - 1, k) + (if carriers[n - 1] < k && !found[n - 1] then 1 else 0)
    decreases k
  {
    hide Share, Misses;
    if k > 0 {
      OneMoreMiss(found, carriers, n, k - 1);
      MissInShare(found, carriers, k - 1, n);
    }
  }

  lemma MissInShare(found: seq<bool>, carriers: seq<nat>, c: nat, n: nat)
    requires 0 < n <= |found| == |carriers|
    ensures Misses(Share(found, carriers, c, n))
            == Misses(Share(found, carriers, c, n - 1)) + (if carriers[n - 1] == c && !found[n - 1] then 1 else 0)
  {
    var share := Share(found, carriers, c, n - 1);
    if carriers[n - 1] == c {
      assert Share(found, carriers, c, n) == share + [found[n - 1]];
      assert (share + [found[n - 1]])[..|share|] == share;
    } else {
      assert Share(found, carriers, c, n) == share;
    }
  }

  /** Every miss is in the share of one carrier. */
  lemma {:induction false} SharesMiss(found: seq<bool>, carriers: seq<nat>, n: nat, k: nat)
    requires n <= |found| == |carriers| && forall i :: 0 <= i < |carriers| ==> carriers[i] < k
    ensures ShareMisses(found, carriers, n, k) == Misses(found[..n])
    decreases n
  {
    hide ShareMisses;
    if n == 0 {
      NoMisses(found, carriers, k);
    } else {
      SharesMiss(found, carriers, n - 1, k);
      OneMoreMiss(found, carriers, n, k);
      assert found[..n][..n - 1] == found[..n - 1];
    }
  }

  lemma {:induction false} NoMisses(found: seq<bool>, carriers: seq<nat>, k: nat)
    requires |found| == |carriers|
    ensures ShareMisses(found, carriers, 0, k) == 0
    decreases k
  {
    if k > 0 {
      NoMisses(found, carriers, k - 1);
    }
  }

  /** A share is empty exactly when nothing goes to the carrier. */
  lemma {:induction false} ShareEmpty(carriers: seq<nat>, c: nat, n: nat)
    requires n <= |carriers|
    ensures Rank(carriers, c, n) == 0 <==> forall i :: 0 <= i < n ==> carriers[i] != c
    decreases n
  {
    if n > 0 {
      ShareEmpty(carriers, c, n - 1);
    }
  }
}
