/** The resumable coders, working in the caller's buffers. */
module Base64Coder {

  import opened Base64
  import opened Base64Laws

  lemma EncOutputs(st: EncState, b: Char)
    ensures st.step == A ==> EncOut(st, b) == [EncodeValue((b & 0xfc) >> 2)]
    ensures st.step == B ==> EncOut(st, b) == [EncodeValue(st.result | ((b & 0xf0) >> 4))]
    ensures st.step == C ==> EncOut(st, b) == [EncodeValue(st.result | ((b & 0xc0) >> 6)), EncodeValue(b & 0x3f)]
  {
    hide EncodeValue;
  }

  class Encoder {

    var step: EncStep
    var result: Char

    function State(): EncState
      reads this
    {
      EncState(step, result)
    }

    constructor ()
      ensures State() == ENC_INIT
    {
      step, result := A, 0;
    }

    /** One turn of the loop: the step for the next byte, writing at `n`. */
    method EncodeByte(fragment: Char, code: array<Char>, n: nat) returns (end: nat)
      requires n + |EncOut(State(), fragment)| <= code.Length
      modifies this, code
      ensures end == n + |EncOut(old(State()), fragment)|
      ensures forall k :: 0 <= k < end - n ==> code[n + k] == EncOut(old(State()), fragment)[k]
      ensures forall i :: 0 <= i < n || end <= i < code.Length ==> code[i] == old(code[i])
      ensures State() == EncNext(old(State()), fragment)
    {
      hide EncodeValue, EncOut;
      ghost var out := EncOut(State(), fragment);
      EncOutputs(State(), fragment);
      match step {
        case A =>
          result := (fragment & 0xfc) >> 2;
          code[n] := EncodeValue(result);
          result, step, end := (fragment & 0x03) << 4, B, n + 1;
        case B =>
          result := result | ((fragment & 0xf0) >> 4);
          code[n] := EncodeValue(result);
          result, step, end := (fragment & 0x0f) << 2, C, n + 1;
        case C =>
          result := result | ((fragment & 0xc0) >> 6);
          code[n] := EncodeValue(result);
          result := fragment & 0x3f;
          code[n + 1] := EncodeValue(result);
          step, end := A, n + 2;
      }
    }

    /** Encodes the first bytes of `plain`, after those of earlier calls. */
    method EncodeBlock(plain: array<Char>, length: nat, code: array<Char>) returns (n: nat)
      requires length <= plain.Length && plain != code
      requires |EncBlock(State(), plain[..length])| <= code.Length
      modifies this, code
      ensures n == |EncBlock(old(State()), plain[..length])|
      ensures code[..n] == EncBlock(old(State()), plain[..length])
      ensures forall i :: n <= i < code.Length ==> code[i] == old(code[i])
      ensures State() == EncAfter(old(State()), plain[..length])
    {
      hide *;
      ghost var st, bs := State(), plain[..length];
      n := 0;
      var i := 0;
      EncNothing(st);
      while i < length
        invariant i <= length && plain[..length] == bs
        invariant n == |EncBlock(st, bs[..i])| <= |EncBlock(st, bs)|
        invariant code[..n] == EncBlock(st, bs[..i])
        invariant forall k :: n <= k < code.Length ==> code[k] == old(code[k])
        invariant State() == EncAfter(st, bs[..i])
      {
        ghost var done := code[..n];
        EncodesOneMore(st, bs, i);
        var end := EncodeByte(plain[i], code, n);
        assert code[..end] == done + code[n..end];
        n, i := end, i + 1;
      }
      assert bs[..length] == bs;
    }

    /** Writes the digit and the padding that close the stream. */
    method EncodeBlockEnd(code: array<Char>) returns (n: nat)
      requires |EncEnd(State())| <= code.Length
      modifies code
      ensures n == |EncEnd(State())|
      ensures code[..n] == EncEnd(State())
      ensures forall i :: n <= i < code.Length ==> code[i] == old(code[i])
    {
      hide EncodeValue;
      n := 0;
      match step {
        case B =>
          code[0] := EncodeValue(result);
          code[1] := PAD;
          code[2] := PAD;
          n := 3;
        case C =>
          code[0] := EncodeValue(result);
          code[1] := PAD;
          n := 2;
        case A =>
      }
    }
  }

  /** One more byte adds its characters at the end, and they fit where the whole block's fit. */
  lemma EncodesOneMore(st: EncState, bs: seq<Char>, i: nat)
    requires i < |bs|
    ensures EncBlock(st, bs[..i + 1]) == EncBlock(st, bs[..i]) + EncOut(EncAfter(st, bs[..i]), bs[i])
    ensures EncAfter(st, bs[..i + 1]) == EncNext(EncAfter(st, bs[..i]), bs[i])
    ensures |EncBlock(st, bs[..i + 1])| <= |EncBlock(st, bs)|
  {
    hide EncOut, EncNext, EncBlock, EncAfter;
    assert bs[..i + 1] == bs[..i] + [bs[i]];
    EncSplit(st, bs[..i], [bs[i]]);
    EncOne(EncAfter(st, bs[..i]), bs[i]);
    assert bs == bs[..i + 1] + bs[i + 1..];
    EncSplit(st, bs[..i + 1], bs[i + 1..]);
  }

  class Decoder {

    var step: DecStep
    var plainchar: Char

    function State(): DecState
      reads this
    {
      DecState(step, plainchar)
    }

    constructor ()
      ensures State() == DEC_INIT
    {
      step, plainchar := SA, 0;
    }

    /** One turn of the loop: the step for the next character. The bits of a byte begun are in
        the buffer, at `n`; a character that is no digit is skipped. */
    method DecodeChar(c: Char, plain: array<Char>, n: nat) returns (end: nat)
      requires n < plain.Length
      requires n + |DecOut(DecState(step, plain[n]), c)| < plain.Length
      modifies this`step, plain
      ensures end == n + |DecOut(old(DecState(step, plain[n])), c)|
      ensures forall k :: 0 <= k < end - n ==> plain[n + k] == DecOut(old(DecState(step, plain[n])), c)[k]
      ensures forall i :: 0 <= i < n || end < i < plain.Length ==> plain[i] == old(plain[i])
      ensures Clean(DecState(step, plain[end])) == Clean(DecNext(old(DecState(step, plain[n])), c))
    {
      hide DecodeValue, Completed, Begun;
      var fragment := DecodeValue(c);
      end := n;
      if fragment < 128 {
        match step {
          case SA =>
            plain[n] := Begun(step, fragment);
            step := SB;
          case SB =>
            plain[n] := Completed(DecState(step, plain[n]), fragment);
            end := n + 1;
            plain[end] := Begun(step, fragment);
            step := SC;
          case SC =>
            plain[n] := Completed(DecState(step, plain[n]), fragment);
            end := n + 1;
            plain[end] := Begun(step, fragment);
            step := SD;
          case SD =>
            plain[n] := Completed(DecState(step, plain[n]), fragment);
            end := n + 1;
            step := SA;
        }
      }
    }

    /** Decodes the first characters of `code`, after those of earlier calls. The buffer is
        written up to and including the index returned, where the bits of a byte begun are. */
    method DecodeBlock(code: array<Char>, length: nat, plain: array<Char>) returns (n: nat)
      requires length <= code.Length && plain != code
      requires |DecBlock(State(), code[..length])| < plain.Length
      modifies this, plain
      ensures n == |DecBlock(old(State()), code[..length])|
      ensures plain[..n] == DecBlock(old(State()), code[..length])
      ensures forall i :: n < i < plain.Length ==> plain[i] == old(plain[i])
      ensures Clean(State()) == Clean(DecAfter(old(State()), code[..length]))
    {
      hide DecBlock, DecAfter, DecOut, DecNext, Clean, DecodeValue, IsDigit;
      ghost var st, cs := State(), code[..length];
      n := 0;
      plain[0] := plainchar;
      var i := 0;
      DecNothing(st);
      while i < length
        invariant i <= length && code[..length] == cs
        invariant n == |DecBlock(st, cs[..i])| <= |DecBlock(st, cs)|
        invariant plain[..n] == DecBlock(st, cs[..i])
        invariant forall k :: n < k < plain.Length ==> plain[k] == old(plain[k])
        invariant Clean(DecState(step, plain[n])) == Clean(DecAfter(st, cs[..i]))
      {
        ghost var done := plain[..n];
        DecodesOneMore(st, cs, i);
        CleanStep(DecState(step, plain[n]), DecAfter(st, cs[..i]), code[i]);
        var end := DecodeChar(code[i], plain, n);
        assert plain[..end] == done + plain[n..end];
        n, i := end, i + 1;
      }
      plainchar := plain[n];
      assert cs[..length] == cs;
    }
  }

  lemma DecodesOneMore(st: DecState, cs: seq<Char>, i: nat)
    requires i < |cs|
    ensures DecBlock(st, cs[..i + 1]) == DecBlock(st, cs[..i]) + DecOut(DecAfter(st, cs[..i]), cs[i])
    ensures DecAfter(st, cs[..i + 1]) == DecNext(DecAfter(st, cs[..i]), cs[i])
    ensures |DecBlock(st, cs[..i + 1])| <= |DecBlock(st, cs)|
  {
    hide DecOut, DecNext, DecBlock, DecAfter;
    assert cs[..i + 1] == cs[..i] + [cs[i]];
    DecSnoc(st, cs[..i], cs[i]);
    assert cs == cs[..i + 1] + cs[i + 1..];
    DecSplit(st, cs[..i + 1], cs[i + 1..]);
  }

  lemma CleanStep(s: DecState, t: DecState, c: Char)
    requires Clean(s) == Clean(t)
    ensures DecOut(s, c) == DecOut(t, c) && Clean(DecNext(s, c)) == Clean(DecNext(t, c))
  {
    hide DecodeValue;
  }

  /** What the buffer held at a group boundary does not matter to later blocks. */
  lemma {:induction false} CleanBlock(s: DecState, t: DecState, cs: seq<Char>)
    requires Clean(s) == Clean(t)
    ensures DecBlock(s, cs) == DecBlock(t, cs)
    ensures Clean(DecAfter(s, cs)) == Clean(DecAfter(t, cs))
    decreases |cs|
  {
    hide DecOut, DecNext, Clean;
    if cs == [] {
    } else {
      var most := cs[..|cs| - 1];
      CleanBlock(s, t, most);
      CleanStep(DecAfter(s, most), DecAfter(t, most), cs[|cs| - 1]);
    }
  }
}
