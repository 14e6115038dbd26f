/** Bytes, little-endian integers and byte buffers that are overwritten in place. */
module Bytes {

  type Byte = n: nat | n < 256

  function Max(a: nat, b: nat): nat { if b > a then b else a }

  function Pow2(n: nat): (p: nat)
    ensures p > 0
  {
    if n == 0 then 1 else 2 * Pow2(n - 1)
  }

  /** 256 to the power w: the number of values a field of w bytes can hold. */
  function Range(w: nat): (r: nat)
    ensures r >= 1
  {
    if w == 0 then 1 else 256 * Range(w - 1)
  }

  /** The w low-order bytes of v, least significant first: what a copy of a machine
      integer of that width leaves in memory. Higher-order bytes are cut off. */
  function Le(v: nat, w: nat): (bs: seq<Byte>)
    ensures |bs| == w
    decreases w, v
  {
    if w == 0 then [] else [v % 256] + Le(v / 256, w - 1)
  }

  /** Values of w bytes each, one after the other. */
  function EncWords(vs: seq<nat>, w: nat): (bs: seq<Byte>)
    ensures |bs| == |vs| * w
  {
    if vs == [] then [] else Le(vs[0], w) + EncWords(vs[1..], w)
  }

  lemma {:induction false} EncWordsSnoc(vs: seq<nat>, v: nat, w: nat)
    ensures EncWords(vs + [v], w) == EncWords(vs, w) + Le(v, w)
  {
    if vs == [] {
      assert [v][1..] == [];
      Nothing(Le(v, w));
    } else {
      EncWordsSnoc(vs[1..], v, w);
      assert (vs + [v])[1..] == vs[1..] + [v];
      Assoc(Le(vs[0], w), EncWords(vs[1..], w), Le(v, w));
    }
  }

  function UnLe(bs: seq<Byte>): nat {
    if bs == [] then 0 else bs[0] + 256 * UnLe(bs[1..])
  }

  lemma {:induction false} UnLeFits(bs: seq<Byte>)
    ensures UnLe(bs) < Range(|bs|)
    decreases |bs|
  {
    if bs != [] {
      UnLeFits(bs[1..]);
    }
  }

  lemma {:induction false} UnLeLe(v: nat, w: nat)
    ensures UnLe(Le(v, w)) == v % Range(w)
    decreases w
  {
    if w > 0 {
      UnLeLe(v / 256, w - 1);
      assert Le(v, w)[1..] == Le(v / 256, w - 1);
      var m := Range(w - 1);
      SplitModulo(v, 256, m);
    }
  }

  lemma SplitModulo(v: nat, b: nat, m: nat)
    requires b >= 1 && m >= 1
    ensures b * m >= 1 && v % (b * m) == v % b + b * (v / b % m)
  {
    var q, r := v / b / m, v / b % m;
    var low := v % b + b * r;
    assert v == (b * m) * q + low by {
      assert v == b * (v / b) + v % b && v / b == m * q + r;
      assert b * (m * q + r) == (b * m) * q + b * r;
    }
    assert low < b * m by {
      assert b * (m - r) == b * m - b * r;
      Multiples(b, m - r);
    }
    Quotient(v, b * m, q, low);
  }

  /** A quotient and a remainder are the only ones. */
  lemma Quotient(v: nat, m: nat, q: nat, r: nat)
    requires r < m && v == m * q + r
    ensures v / m == q && v % m == r
  {
    var d := q - v / m;
    assert m * d == v % m - r by {
      assert m * d == m * q - m * (v / m);
    }
    Multiples(m, d);
  }

  lemma Multiples(m: nat, d: int)
    ensures (d >= 1 ==> m * d >= m) && (d <= -1 ==> m * d <= 0 - m)
  {
    if d >= 1 {
      assert m * d == m + m * (d - 1);
    } else if d <= -1 {
      assert m * d == m * (d + 1) - m;
    }
  }

  /** A field of w bytes reads back exactly the values below its range. */
  lemma LeFits(v: nat, w: nat)
    ensures UnLe(Le(v, w)) == v <==> v < Range(w)
  {
    UnLeLe(v, w);
    if v < Range(w) {
      Quotient(v, Range(w), 0, v);
    }
  }

  lemma Ranges()
    ensures Range(0) == 1 && Range(1) == 256 && Range(2) == 0x1_0000
    ensures Range(4) == 0x1_0000_0000 && Range(8) == 0x1_0000_0000_0000_0000
  {
    assert Range(3) == 256 * Range(2);
    assert Range(5) == 256 * Range(4);
    assert Range(7) == 256 * 256 * Range(5);
  }

  /** The buffer d after b has been written at p; the buffer grows when b passes its end. */
  function Splice(d: seq<Byte>, p: nat, b: seq<Byte>): (r: seq<Byte>)
    requires p <= |d|
    ensures |r| == Max(|d|, p + |b|)
  {
    d[..p] + b + (if p + |b| <= |d| then d[p + |b|..] else [])
  }

  lemma SpliceAppend(d: seq<Byte>, p: nat, a: seq<Byte>, b: seq<Byte>)
    requires p <= |d|
    ensures Splice(Splice(d, p, a), p + |a|, b) == Splice(d, p, a + b)
  {
  }

  /** Overwriting a slot inside what was written, leaving everything around it. */
  lemma SplicePatch(d: seq<Byte>, p: nat, a: seq<Byte>, x: seq<Byte>, c: seq<Byte>, y: seq<Byte>)
    requires p <= |d| && |x| == |y|
    ensures Splice(Splice(d, p, a + x + c), p + |a|, y) == Splice(d, p, a + y + c)
  {
    var n := p + |a + x + c|;
    var tail := if n <= |d| then d[n..] else [];
    Replaced(d[..p] + a, x, c + tail, y);
    Regroup(d[..p], a, x, c, tail);
    Regroup(d[..p], a, y, c, tail);
  }

  lemma Regroup(l: seq<Byte>, a: seq<Byte>, x: seq<Byte>, c: seq<Byte>, r: seq<Byte>)
    ensures l + (a + x + c) + r == l + a + x + (c + r)
  {
    Assoc(l, a + x, c);
    Assoc(l, a, x);
    Assoc(l + a + x, c, r);
  }

  lemma Replaced(l: seq<Byte>, x: seq<Byte>, r: seq<Byte>, y: seq<Byte>)
    requires |x| == |y|
    ensures Splice(l + x + r, |l|, y) == l + y + r
  {
    assert (l + x + r)[..|l|] == l && (l + x + r)[|l| + |x|..] == r;
  }

  // A whole that is built piece by piece.

  /** done and rest make up the whole. */
  ghost predicate Parts(done: seq<Byte>, rest: seq<Byte>, whole: seq<Byte>) { done + rest == whole }

  lemma NothingDone(whole: seq<Byte>)
    ensures Parts([], whole, whole)
  {
  }

  /** The next piece moves from what is left to what is done. */
  lemma PieceDone(done: seq<Byte>, piece: seq<Byte>, rest: seq<Byte>, whole: seq<Byte>)
    requires Parts(done, piece + rest, whole)
    ensures Parts(done + piece, rest, whole)
  {
  }

  lemma AllDone(done: seq<Byte>, whole: seq<Byte>)
    requires Parts(done, [], whole)
    ensures done == whole
  {
  }

  /** The same for lists of numbers. */
  ghost predicate Listed(done: seq<nat>, rest: seq<nat>, whole: seq<nat>) { done + rest == whole }

  lemma NothingListed(whole: seq<nat>)
    ensures Listed([], whole, whole)
  {
  }

  lemma ItemListed(done: seq<nat>, item: nat, rest: seq<nat>, whole: seq<nat>)
    requires Listed(done, [item] + rest, whole)
    ensures Listed(done + [item], rest, whole)
  {
  }

  lemma AllListed(done: seq<nat>, whole: seq<nat>)
    requires Listed(done, [], whole)
    ensures done == whole
  {
  }

  lemma Nothing<T>(s: seq<T>)
    ensures [] + s == s && s + [] == s
  {
  }

  lemma Assoc<T>(a: seq<T>, b: seq<T>, c: seq<T>)
    ensures (a + b) + c == a + (b + c)
  {
  }

  /** b holds the bytes e from position p on. */
  ghost predicate At(b: seq<Byte>, p: nat, e: seq<Byte>) {
    p + |e| <= |b| && b[p..p + |e|] == e
  }

  lemma AtSplit(b: seq<Byte>, p: nat, e: seq<Byte>, f: seq<Byte>)
    requires At(b, p, e + f)
    ensures At(b, p, e) && At(b, p + |e|, f)
  {
    assert b[p..p + |e|] == (e + f)[..|e|];
    assert b[p + |e|..p + |e| + |f|] == (e + f)[|e|..];
  }
}
