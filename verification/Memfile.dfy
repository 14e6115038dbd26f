/** A growable block of bytes with a cursor. */
module Memory {
  import opened Bytes

  /** A memory file's state: the block's contents, the cursor, and one past the highest byte
      written or skipped so far. Past lastByte the block holds whatever memory held. */
  datatype State = State(data: seq<Byte>, pos: nat, lastByte: nat) {
    ghost predicate Ready() { pos <= |data| && pos <= lastByte }
  }

  /** The state after bs has been written at the cursor: no byte outside them has changed. */
  ghost function After(m: State, bs: seq<Byte>): (r: State)
    requires m.Ready()
    ensures r.Ready() && r.pos == m.pos + |bs|
    ensures r.lastByte == Max(m.lastByte, r.pos)
  {
    State(Splice(m.data, m.pos, bs), m.pos + |bs|, Max(m.lastByte, m.pos + |bs|))
  }

  lemma AfterNothing(m: State)
    requires m.Ready()
    ensures After(m, []) == m
  {
  }

  lemma AfterBoth(m: State, a: seq<Byte>, b: seq<Byte>)
    requires m.Ready()
    ensures After(After(m, a), b) == After(m, a + b)
  {
    SpliceAppend(m.data, m.pos, a, b);
  }

  function Zeros(n: nat): (zs: seq<Byte>)
    ensures |zs| == n && forall i :: 0 <= i < n ==> zs[i] == 0
  {
    if n == 0 then [] else Zeros(n - 1) + [0]
  }

  class Memfile {
    var data: seq<Byte>
    var pos: nat
    var lastByte: nat

    constructor (data: seq<Byte>)
      ensures this.data == data && pos == 0 && lastByte == 0
    {
      this.data, pos, lastByte := data, 0, 0;
    }

    ghost function Now(): State
      reads this
    {
      State(data, pos, lastByte)
    }

    method Write(bs: seq<Byte>)
      requires Now().Ready()
      modifies this
      ensures Now() == After(old(Now()), bs)
    {
      AfterNothing(Now());
      if bs != [] {
        data := Splice(data, pos, bs);
        pos := pos + |bs|;
        lastByte := Max(lastByte, pos);
      }
    }

    /** Moves past n bytes without writing them: the gap keeps, or gets, arbitrary content. */
    method Skip(n: nat) returns (ghost gap: seq<Byte>)
      requires Now().Ready()
      modifies this
      ensures |gap| == n && Now() == After(old(Now()), gap)
    {
      if |data| < pos + n {
        assert |seq(pos + n - |data|, _ => 0)| == pos + n - |data|;
        var fill: seq<Byte> :| |fill| == pos + n - |data|;
        data := data + fill;
      }
      gap := data[pos..pos + n];
      pos := pos + n;
      lastByte := Max(lastByte, pos);
    }

    /** Moves to any place; the block grows, filled with zeros, when it ends in front of it. The
        source also keeps a spare byte behind the cursor, which here is not part of the block. */
    method Seek(p: nat)
      modifies this`data, this`pos
      ensures pos == p && (p <= old(|data|) ==> data == old(data))
      ensures p > old(|data|) ==> data == old(data) + Zeros(p - old(|data|))
    {
      if p > |data| {
        data := data + Zeros(p - |data|);
      }
      pos := p;
    }

    /** Cuts the block off behind the last byte; the cursor must be there. */
    method Shrink()
      requires lastByte == pos <= |data|
      modifies this`data
      ensures data == old(data[..pos])
    {
      data := data[..lastByte];
    }

    /** Reads n bytes at the cursor; past the end of the block there is nothing to read, but
        the cursor moves all the same. */
    method Read(n: nat) returns (ok: bool, bs: seq<Byte>)
      modifies this`pos
      ensures ok <==> old(pos) + n <= |data|
      ensures bs == (if ok then data[old(pos)..old(pos) + n] else []) && pos == old(pos) + n
    {
      ok := pos + n <= |data|;
      bs := if ok then data[pos..pos + n] else [];
      pos := pos + n;
    }

    /** Seeks back to a slot of what has been written since m, overwrites it and returns to
        the end. */
    method Patch(ghost m: State, ghost a: seq<Byte>, ghost x: seq<Byte>, ghost c: seq<Byte>, at: nat, bs: seq<Byte>)
      requires m.Ready() && Now() == After(m, a + x + c) && at == m.pos + |a| && |bs| == |x|
      modifies this
      ensures Now() == After(m, a + bs + c)
    {
      hide Zeros;
      var continuePos := pos;
      Seek(at);
      Write(bs);
      Seek(continuePos);
      SplicePatch(m.data, m.pos, a, x, c, bs);
    }
  }
}
