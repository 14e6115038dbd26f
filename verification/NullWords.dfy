/** The copy of numbers of nulls into an archive. In memory such a number has 2 bytes, but the
    writer copies 4 bytes for each number of a vector: first the numbers, then as many bytes that
    lie behind them. Those are zero as far as the vector was made to hold more numbers, and can be
    anything behind that. */
module NullWords {
  import opened Bytes
  import opened Limits
  import opened Scan

  /** The 4-byte words that are read at the counts, given the bytes behind them. */
  function WordsBehind(counts: seq<nat>, behind: seq<Byte>): (words: seq<nat>)
    requires |behind| == 2 * |counts|
    ensures |words| == |counts|
  {
    WordList(EncWords(counts, 2) + behind, 0, |counts|, 4)
  }

  /** The bytes that can lie behind n numbers in a vector whose first `space` bytes were zero. */
  predicate CanFollow(n: nat, space: nat, behind: seq<Byte>) {
    |behind| == 2 * n && forall k :: 0 <= k < |behind| && 2 * n + k < space ==> behind[k] == 0
  }

  ghost predicate CopiedWords(counts: seq<nat>, space: nat, words: seq<nat>) {
    exists behind: seq<Byte> :: CanFollow(|counts|, space, behind) && words == WordsBehind(counts, behind)
  }

  lemma {:induction false} LeUnLe(bs: seq<Byte>)
    ensures Le(UnLe(bs), |bs|) == bs
    decreases |bs|
  {
    if bs != [] {
      LeUnLe(bs[1..]);
      Quotient(UnLe(bs), 256, UnLe(bs[1..]), bs[0]);
      assert bs == [bs[0]] + bs[1..];
    }
  }

  lemma {:induction false} WordsAre(b: seq<Byte>, p: nat, n: nat, w: nat)
    requires p + n * w == |b|
    ensures EncWords(WordList(b, p, n, w), w) == b[p..]
    decreases n
  {
    if n > 0 {
      assert n * w == w + (n - 1) * w;
      WordsAre(b, p + w, n - 1, w);
      LeUnLe(b[p..p + w]);
      assert b[p..] == b[p..p + w] + b[p + w..];
      assert WordList(b, p, n, w)[1..] == WordList(b, p + w, n - 1, w);
    }
  }

  /** What is written are the bytes of the counts and then the bytes behind them. */
  lemma WrittenBytes(counts: seq<nat>, behind: seq<Byte>)
    requires |behind| == 2 * |counts|
    ensures EncWords(WordsBehind(counts, behind), 4) == EncWords(counts, 2) + behind
  {
    var b := EncWords(counts, 2) + behind;
    WordsAre(b, 0, |counts|, 4);
    assert b[0..] == b;
  }

  lemma {:induction false} WordAt(b: seq<Byte>, p: nat, n: nat, w: nat, i: nat)
    requires p + n * w <= |b| && i < n
    ensures i * w >= 0 && i * w + w <= n * w && WordList(b, p, n, w)[i] == Word(b, p + i * w, w)
    decreases i
  {
    assert n * w == w + (n - 1) * w && (n - 1) * w >= 0;
    if i > 0 {
      WordAt(b, p + w, n - 1, w, i - 1);
      assert i * w == w + (i - 1) * w;
    }
  }

  lemma {:induction false} CountAt(counts: seq<nat>, i: nat)
    requires i < |counts|
    ensures EncWords(counts, 2)[2 * i..2 * i + 2] == Le(counts[i], 2)
    decreases i
  {
    hide Le;
    if i > 0 {
      CountAt(counts[1..], i - 1);
      assert EncWords(counts, 2)[2 * i..2 * i + 2] == EncWords(counts[1..], 2)[2 * (i - 1)..2 * (i - 1) + 2];
    }
  }

  /** A word in the front half is made of two counts. */
  lemma FrontWord(counts: seq<nat>, space: nat, words: seq<nat>, i: nat)
    requires CopiedWords(counts, space, words) && 2 * i + 1 < |counts|
    ensures |words| == |counts| && words[i] == counts[2 * i] % 0x1_0000 + 0x1_0000 * (counts[2 * i + 1] % 0x1_0000)
  {
    hide EncWords, WordList, Le;
    var behind: seq<Byte> :| CanFollow(|counts|, space, behind) && words == WordsBehind(counts, behind);
    var b := EncWords(counts, 2) + behind;
    WordAt(b, 0, |counts|, 4, i);
    CountAt(counts, 2 * i);
    CountAt(counts, 2 * i + 1);
    assert b[4 * i..4 * i + 4] == Le(counts[2 * i], 2) + Le(counts[2 * i + 1], 2) by {
      assert b[4 * i..4 * i + 4] == EncWords(counts, 2)[4 * i..4 * i + 4];
    }
    TwoCounts(counts[2 * i], counts[2 * i + 1]);
  }

  /** One number comes back from a vector that was made for two. */
  lemma OneWord(count: nat, space: nat, words: seq<nat>)
    requires CopiedWords([count], space, words) && space >= 4
    ensures words == [count % 0x1_0000]
  {
    hide EncWords, WordList, Le;
    var behind: seq<Byte> :| CanFollow(1, space, behind) && words == WordsBehind([count], behind);
    assert behind == [0, 0];
    TwoBytes(count, behind);
    WithZeros(count);
    assert words == [words[0]];
  }

  /** Up to five numbers in a vector made for ten are always written the same, and more than five,
      but no more than ten, are not. */
  lemma FiveNumbers(counts: seq<nat>)
    requires 0 < |counts| <= 10
    ensures (forall words, more :: CopiedWords(counts, 20, words) && CopiedWords(counts, 20, more) ==> words == more)
            <==> |counts| <= 5
  {
    hide WordsBehind;
    var n := |counts|;
    if n <= 5 {
      forall behind, other | CanFollow(n, 20, behind) && CanFollow(n, 20, other)
        ensures behind == other
      {
      }
    } else {
      var zeros: seq<Byte> := seq(2 * n, k requires 0 <= k => 0);
      var one := zeros[2 * n - 1 := 1];
      assert CanFollow(n, 20, zeros) && CanFollow(n, 20, one);
      WrittenBytes(counts, zeros);
      WrittenBytes(counts, one);
      assert (EncWords(counts, 2) + zeros)[4 * n - 1] != (EncWords(counts, 2) + one)[4 * n - 1];
      assert CopiedWords(counts, 20, WordsBehind(counts, zeros)) && CopiedWords(counts, 20, WordsBehind(counts, one));
    }
  }

  /** With zeros behind it a number is read as it is. */
  lemma SameWord(count: nat, space: nat)
    requires count < 0x1_0000
    ensures CopiedWords([count], space, [count])
  {
    hide EncWords, WordList, Le, WordsBehind;
    TwoBytes(count, [0, 0]);
    WithZeros(count);
    assert WordsBehind([count], [0, 0]) == [count];
    assert CanFollow(1, space, [0, 0]);
  }

  lemma NoWords(space: nat, words: seq<nat>)
    ensures CopiedWords([], space, words) <==> words == []
  {
    assert CanFollow(0, space, []) && WordsBehind([], []) == [];
  }

  /** The one word of one number. */
  lemma TwoBytes(count: nat, behind: seq<Byte>)
    requires |behind| == 2
    ensures WordsBehind([count], behind)[0] == UnLe(Le(count, 2) + behind)
  {
    hide Le, UnLe;
    var b := EncWords([count], 2) + behind;
    assert [count][1..] == [] && EncWords([], 2) == [];
    Nothing(Le(count, 2));
    assert b[0..4] == b;
  }

  lemma WithZeros(count: nat)
    ensures UnLe(Le(count, 2) + [0, 0]) == count % 0x1_0000
  {
    hide UnLe, Le;
    ZeroBytes();
    TwoCounts(count, 0);
  }

  lemma ZeroBytes()
    ensures Le(0, 2) == [0, 0]
  {
    assert Le(0, 1) == [0] + Le(0, 0);
  }

  /** With zeros behind them the last of several numbers becomes 0. */
  lemma LastWordZero(counts: seq<nat>, behind: seq<Byte>)
    requires |counts| >= 2 && |behind| == 2 * |counts| && forall k :: 0 <= k < |behind| ==> behind[k] == 0
    ensures WordsBehind(counts, behind)[|counts| - 1] == 0
  {
    hide EncWords, WordList, Le, UnLe;
    var n := |counts|;
    var b := EncWords(counts, 2) + behind;
    WordAt(b, 0, n, 4, n - 1);
    forall k | 4 * n - 4 <= k < 4 * n
      ensures b[k] == 0
    {
      assert b[k] == behind[k - 2 * n];
    }
    assert b[4 * n - 4..4 * n] == [0, 0, 0, 0];
    Zeros4();
  }

  lemma Zeros4()
    ensures UnLe([0, 0, 0, 0]) == 0
  {
    assert [0, 0, 0, 0][1..] == [0, 0, 0] && [0, 0, 0][1..] == [0, 0] && [0, 0][1..] == [0];
  }

  /** With ones behind it a single number becomes one that is too large. */
  lemma OneBehind(count: nat)
    ensures WordsBehind([count], [1, 1])[0] >= 0x1_0000
  {
    hide Le, UnLe;
    TwoBytes(count, [1, 1]);
    TwoCounts(count, 0x101);
    Ones();
  }

  lemma Ones()
    ensures Le(0x101, 2) == [1, 1]
  {
    assert Le(1, 1) == [1] + Le(0, 0);
  }

  lemma TwoCounts(c: nat, d: nat)
    ensures UnLe(Le(c, 2) + Le(d, 2)) == c % 0x1_0000 + 0x1_0000 * (d % 0x1_0000)
  {
    var x, y := Le(c, 2), Le(d, 2);
    UnLeLe(c, 2);
    UnLeLe(d, 2);
    Ranges();
    assert x == [x[0], x[1]] && y == [y[0], y[1]];
    assert x + y == [x[0]] + ([x[1]] + y);
    assert (x + y)[1..] == [x[1]] + y && ([x[1]] + y)[1..] == y;
    assert x[1..] == [x[1]] && [x[1]][1..] == [];
  }

  lemma WordsFit(counts: seq<nat>, space: nat, words: seq<nat>)
    requires CopiedWords(counts, space, words)
    ensures |words| == |counts| && Fit(words, 4)
  {
    hide UnLe, Range, EncWords;
    var behind: seq<Byte> :| CanFollow(|counts|, space, behind) && words == WordsBehind(counts, behind);
    var b := EncWords(counts, 2) + behind;
    forall i | 0 <= i < |words|
      ensures words[i] < Range(4)
    {
      WordAt(b, 0, |counts|, 4, i);
      UnLeFits(b[4 * i..4 * i + 4]);
    }
  }
}
