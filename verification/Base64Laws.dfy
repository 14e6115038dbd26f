/** The streaming coders against section 4 of RFC 4648: independence of the chunking, lengths,
    and the round trip. */
module Base64Laws {

  import opened Base64

  // ----- chunks

  lemma {:induction false} EncSplit(st: EncState, a: seq<Char>, b: seq<Char>)
    ensures EncAfter(st, a + b) == EncAfter(EncAfter(st, a), b)
    ensures EncBlock(st, a + b) == EncBlock(st, a) + EncBlock(EncAfter(st, a), b)
    decreases |b|
  {
    hide EncNext, EncOut;
    if b == [] {
      assert a + b == a;
    } else {
      assert (a + b)[..|a + b| - 1] == a + b[..|b| - 1];
      EncSplit(st, a, b[..|b| - 1]);
    }
  }

  lemma {:induction false} DecSplit(st: DecState, a: seq<Char>, b: seq<Char>)
    ensures DecAfter(st, a + b) == DecAfter(DecAfter(st, a), b)
    ensures DecBlock(st, a + b) == DecBlock(st, a) + DecBlock(DecAfter(st, a), b)
    decreases |b|
  {
    hide DecNext, DecOut;
    if b == [] {
      assert a + b == a;
    } else {
      assert (a + b)[..|a + b| - 1] == a + b[..|b| - 1];
      DecSplit(st, a, b[..|b| - 1]);
    }
  }

  lemma {:induction false} DigitsSplit(a: seq<Char>, b: seq<Char>)
    ensures Digits(a + b) == Digits(a) + Digits(b)
    decreases |b|
  {
    hide IsDigit;
    if b == [] {
      assert a + b == a;
    } else {
      assert (a + b)[..|a + b| - 1] == a + b[..|b| - 1];
      DigitsSplit(a, b[..|b| - 1]);
    }
  }

  /** The blocks of a stream, joined. */
  function Joined(blocks: seq<seq<Char>>): seq<Char>
    decreases |blocks|
  {
    if blocks == [] then [] else blocks[0] + Joined(blocks[1..])
  }

  /** What the encoder writes for a stream of blocks and the final call. */
  function Encoded(st: EncState, blocks: seq<seq<Char>>): seq<Char>
    decreases |blocks|
  {
    if blocks == [] then EncEnd(st)
    else EncBlock(st, blocks[0]) + Encoded(EncAfter(st, blocks[0]), blocks[1..])
  }

  /** What the decoder writes for a stream of blocks. */
  function Decoded(st: DecState, blocks: seq<seq<Char>>): seq<Char>
    decreases |blocks|
  {
    if blocks == [] then []
    else DecBlock(st, blocks[0]) + Decoded(DecAfter(st, blocks[0]), blocks[1..])
  }

  lemma {:induction false} EncodedAnyChunks(st: EncState, blocks: seq<seq<Char>>)
    ensures Encoded(st, blocks) == EncBlock(st, Joined(blocks)) + EncEnd(EncAfter(st, Joined(blocks)))
    decreases |blocks|
  {
    hide EncBlock, EncAfter, EncEnd;
    if blocks == [] {
      EncNothing(st);
    } else {
      EncodedAnyChunks(EncAfter(st, blocks[0]), blocks[1..]);
      EncSplit(st, blocks[0], Joined(blocks[1..]));
    }
  }

  lemma EncNothing(st: EncState)
    ensures EncBlock(st, []) == [] && EncAfter(st, []) == st
  {
  }

  lemma {:induction false} DecodedAnyChunks(st: DecState, blocks: seq<seq<Char>>)
    ensures Decoded(st, blocks) == DecBlock(st, Joined(blocks))
    decreases |blocks|
  {
    hide DecAfter, DecNext, DecOut;
    if blocks == [] {
    } else {
      DecodedAnyChunks(DecAfter(st, blocks[0]), blocks[1..]);
      DecSplit(st, blocks[0], Joined(blocks[1..]));
    }
  }

  // ----- the encoder is RFC 4648

  lemma EncOne(st: EncState, a: Char)
    ensures EncBlock(st, [a]) == EncOut(st, a)
    ensures EncAfter(st, [a]) == EncNext(st, a)
  {
    hide EncOut, EncNext;
    assert [a][..0] == [];
    assert EncAfter(st, []) == st;
  }

  lemma EncTwo(st: EncState, a: Char, b: Char)
    ensures EncBlock(st, [a, b]) == EncOut(st, a) + EncOut(EncNext(st, a), b)
    ensures EncAfter(st, [a, b]) == EncNext(EncNext(st, a), b)
  {
    hide *;
    assert [a, b] == [a] + [b];
    EncSplit(st, [a], [b]);
    EncOne(st, a);
    EncOne(EncNext(st, a), b);
  }

  lemma EncThree(st: EncState, a: Char, b: Char, c: Char)
    ensures EncBlock(st, [a, b, c])
            == EncOut(st, a) + EncOut(EncNext(st, a), b) + EncOut(EncNext(EncNext(st, a), b), c)
    ensures EncAfter(st, [a, b, c]) == EncNext(EncNext(EncNext(st, a), b), c)
  {
    hide *;
    assert [a, b, c] == [a, b] + [c];
    EncSplit(st, [a, b], [c]);
    EncTwo(st, a, b);
    EncOne(EncNext(EncNext(st, a), b), c);
  }

  // The six-bit values of the group of three bytes a, b and c, by the shift that takes them out.

  function Six18(a: Char): Char { (a & 0xfc) >> 2 }
  function Six12(a: Char, b: Char): Char { ((a & 0x03) << 4) | ((b & 0xf0) >> 4) }
  function Six6(b: Char, c: Char): Char { ((b & 0x0f) << 2) | ((c & 0xc0) >> 6) }
  function Six0(c: Char): Char { c & 0x3f }

  // The bytes of the group of the six-bit values u, v, w and x, by their shift.

  function Byte16(u: Char, v: Char): Char { (u << 2) | (v >> 4) }
  function Byte8(v: Char, w: Char): Char { (v << 4) | (w >> 2) }
  function Byte0(w: Char, x: Char): Char { (w << 6) | x }

  lemma GroupBits(a: Char, b: Char, c: Char)
    ensures ((Bits(a, b, c) >> 18) & 0x3f) as Char == Six18(a)
    ensures ((Bits(a, b, c) >> 12) & 0x3f) as Char == Six12(a, b)
    ensures ((Bits(a, b, c) >> 6) & 0x3f) as Char == Six6(b, c)
    ensures (Bits(a, b, c) & 0x3f) as Char == Six0(c)
  {
  }

  /** Three bytes from a group boundary are the four digits of their group. */
  lemma GroupEncoded(st: EncState, a: Char, b: Char, c: Char)
    requires st.step == A
    ensures EncBlock(st, [a, b, c])
            == [Digit(Bits(a, b, c), 18), Digit(Bits(a, b, c), 12), Digit(Bits(a, b, c), 6), Digit(Bits(a, b, c), 0)]
    ensures EncAfter(st, [a, b, c]).step == A
  {
    hide EncBlock, EncAfter, EncodeValue, Bits;
    EncThree(st, a, b, c);
    GroupBits(a, b, c);
  }

  lemma OneEncoded(st: EncState, a: Char)
    requires st.step == A
    ensures EncBlock(st, [a]) + EncEnd(EncAfter(st, [a])) == Rfc4648([a])
  {
    hide EncBlock, EncAfter, EncodeValue, Bits;
    EncOne(st, a);
    GroupBits(a, 0, 0);
    assert (a & 0x03) << 4 == ((a & 0x03) << 4) | ((0 & 0xf0) >> 4);
  }

  lemma TwoEncoded(st: EncState, a: Char, b: Char)
    requires st.step == A
    ensures EncBlock(st, [a, b]) + EncEnd(EncAfter(st, [a, b])) == Rfc4648([a, b])
  {
    hide EncBlock, EncAfter, EncodeValue, Bits;
    EncTwo(st, a, b);
    GroupBits(a, b, 0);
    assert (b & 0x0f) << 2 == ((b & 0x0f) << 2) | ((0 & 0xc0) >> 6);
  }

  lemma {:induction false} EncodesRfc4648(st: EncState, bs: seq<Char>)
    requires st.step == A
    ensures EncBlock(st, bs) + EncEnd(EncAfter(st, bs)) == Rfc4648(bs)
    decreases |bs|
  {
    hide EncBlock, EncAfter, EncodeValue, Bits, Digit;
    if bs == [] {
      EncNothing(st);
    } else if |bs| == 1 {
      assert bs == [bs[0]];
      OneEncoded(st, bs[0]);
    } else if |bs| == 2 {
      assert bs == [bs[0], bs[1]];
      TwoEncoded(st, bs[0], bs[1]);
    } else {
      var group := [bs[0], bs[1], bs[2]];
      assert bs == group + bs[3..];
      GroupEncoded(st, bs[0], bs[1], bs[2]);
      EncSplit(st, group, bs[3..]);
      EncodesRfc4648(EncAfter(st, group), bs[3..]);
    }
  }

  /** However the bytes come in blocks, the encoder's output is that of section 4 of RFC 4648. */
  lemma StreamIsRfc4648(blocks: seq<seq<Char>>)
    ensures Encoded(ENC_INIT, blocks) == Rfc4648(Joined(blocks))
  {
    EncodedAnyChunks(ENC_INIT, blocks);
    EncodesRfc4648(ENC_INIT, Joined(blocks));
  }

  // ----- lengths

  /** Bytes since the last group boundary. */
  function PendingBytes(st: EncState): (n: nat)
    ensures n < 3
  {
    match st.step case A => 0 case B => 1 case C => 2
  }

  /** Digits since the last group boundary. */
  function PendingDigits(st: DecState): (n: nat)
    ensures n < 4
  {
    match st.step case SA => 0 case SB => 1 case SC => 2 case SD => 3
  }

  lemma EncStepLength(st: EncState, b: Char)
    ensures |EncOut(st, b)| == 4 * (PendingBytes(st) + 1) / 3 - 4 * PendingBytes(st) / 3
    ensures PendingBytes(EncNext(st, b)) == (PendingBytes(st) + 1) % 3
  {
    hide EncodeValue;
    match st.step
    case A =>
    case B =>
    case C =>
  }

  lemma ThirdsOf(q: nat, r: nat)
    requires r < 3
    ensures 4 * (3 * q + r) / 3 == 4 * q + 4 * r / 3 && (3 * q + r) % 3 == r
  {
  }

  lemma ThirdsStep(n: nat)
    ensures 4 * (n % 3 + 1) / 3 - 4 * (n % 3) / 3 == 4 * (n + 1) / 3 - 4 * n / 3
    ensures (n % 3 + 1) % 3 == (n + 1) % 3
  {
    var q, r := n / 3, n % 3;
    ThirdsOf(q, r);
    if r < 2 {
      ThirdsOf(q, r + 1);
    } else {
      ThirdsOf(q + 1, 0);
    }
  }

  lemma {:induction false} EncLength(st: EncState, bs: seq<Char>)
    ensures |EncBlock(st, bs)| == 4 * (PendingBytes(st) + |bs|) / 3 - 4 * PendingBytes(st) / 3
    ensures PendingBytes(EncAfter(st, bs)) == (PendingBytes(st) + |bs|) % 3
    decreases |bs|
  {
    hide EncOut, EncNext, PendingBytes;
    if bs == [] {
    } else {
      EncLength(st, bs[..|bs| - 1]);
      EncStepLength(EncAfter(st, bs[..|bs| - 1]), bs[|bs| - 1]);
      ThirdsStep(PendingBytes(st) + |bs| - 1);
    }
  }

  /** After k bytes the encoder has written floor(4k/3) characters, and 4*ceil(k/3) at the end. */
  lemma EncodedLengths(bs: seq<Char>)
    ensures |EncBlock(ENC_INIT, bs)| == 4 * |bs| / 3
    ensures |EncBlock(ENC_INIT, bs) + EncEnd(EncAfter(ENC_INIT, bs))| == 4 * ((|bs| + 2) / 3)
  {
    hide EncBlock, EncAfter;
    EncLength(ENC_INIT, bs);
  }

  lemma DecStepLength(st: DecState, c: Char)
    ensures |DecOut(st, c)| == if IsDigit(c) then 3 * (PendingDigits(st) + 1) / 4 - 3 * PendingDigits(st) / 4 else 0
    ensures PendingDigits(DecNext(st, c))
            == if IsDigit(c) then (PendingDigits(st) + 1) % 4 else PendingDigits(st)
  {
    hide IsDigit, DecodeValue;
  }

  lemma QuartersOf(q: nat, r: nat)
    requires r < 4
    ensures 3 * (4 * q + r) / 4 == 3 * q + 3 * r / 4 && (4 * q + r) % 4 == r
  {
  }

  lemma QuartersStep(n: nat)
    ensures 3 * (n % 4 + 1) / 4 - 3 * (n % 4) / 4 == 3 * (n + 1) / 4 - 3 * n / 4
    ensures (n % 4 + 1) % 4 == (n + 1) % 4
  {
    var q, r := n / 4, n % 4;
    QuartersOf(q, r);
    if r < 3 {
      QuartersOf(q, r + 1);
    } else {
      QuartersOf(q + 1, 0);
    }
  }

  lemma {:induction false} DecLength(st: DecState, cs: seq<Char>)
    ensures |DecBlock(st, cs)| == 3 * (PendingDigits(st) + |Digits(cs)|) / 4 - 3 * PendingDigits(st) / 4
    ensures PendingDigits(DecAfter(st, cs)) == (PendingDigits(st) + |Digits(cs)|) % 4
    decreases |cs|
  {
    hide IsDigit, DecOut, DecNext, PendingDigits;
    if cs == [] {
    } else {
      DecLength(st, cs[..|cs| - 1]);
      var most := cs[..|cs| - 1];
      DecStepLength(DecAfter(st, most), cs[|cs| - 1]);
      QuartersStep(PendingDigits(st) + |Digits(most)|);
    }
  }

  /** After k digits the decoder has written floor(3k/4) bytes. */
  lemma DecodedLength(cs: seq<Char>)
    ensures |DecBlock(DEC_INIT, cs)| == 3 * |Digits(cs)| / 4
  {
    DecLength(DEC_INIT, cs);
  }

  // ----- the decoder sees digits only

  lemma DecNothing(st: DecState)
    ensures DecBlock(st, []) == [] && DecAfter(st, []) == st
  {
  }

  lemma NoDigits()
    ensures Digits([]) == []
  {
  }

  lemma DigitsStep(most: seq<Char>, last: Char)
    ensures Digits(most + [last]) == if IsDigit(last) then Digits(most) + [last] else Digits(most)
  {
    assert (most + [last])[..|most|] == most;
  }

  lemma DecSnoc(st: DecState, most: seq<Char>, last: Char)
    ensures DecBlock(st, most + [last]) == DecBlock(st, most) + DecOut(DecAfter(st, most), last)
    ensures DecAfter(st, most + [last]) == DecNext(DecAfter(st, most), last)
  {
    assert (most + [last])[..|most|] == most;
  }

  lemma NotADigit(st: DecState, c: Char)
    requires !IsDigit(c)
    ensures DecNext(st, c) == st && DecOut(st, c) == []
  {
  }

  lemma {:induction false} OnlyDigits(st: DecState, cs: seq<Char>)
    ensures DecBlock(st, cs) == DecBlock(st, Digits(cs))
    ensures DecAfter(st, cs) == DecAfter(st, Digits(cs))
    decreases |cs|
  {
    hide IsDigit, DecNext, DecOut, DecBlock, DecAfter, Digits;
    if cs == [] {
      NoDigits();
    } else {
      var most, last := cs[..|cs| - 1], cs[|cs| - 1];
      assert cs == most + [last];
      OnlyDigits(st, most);
      DigitsStep(most, last);
      DecSnoc(st, most, last);
      if IsDigit(last) {
        DecSnoc(st, Digits(most), last);
      } else {
        NotADigit(DecAfter(st, most), last);
      }
    }
  }

  // ----- the round trip

  lemma DecOne(st: DecState, c: Char)
    ensures DecBlock(st, [c]) == DecOut(st, c)
    ensures DecAfter(st, [c]) == DecNext(st, c)
  {
    hide DecOut, DecNext;
    assert [c] == [] + [c];
    DecSnoc(st, [], c);
    assert DecBlock(st, []) == [] && DecAfter(st, []) == st;
  }

  lemma DecTwo(st: DecState, c: Char, d: Char)
    ensures DecBlock(st, [c, d]) == DecOut(st, c) + DecOut(DecNext(st, c), d)
    ensures DecAfter(st, [c, d]) == DecNext(DecNext(st, c), d)
  {
    hide *;
    assert [c, d] == [c] + [d];
    DecSnoc(st, [c], d);
    DecOne(st, c);
  }

  lemma DecThree(st: DecState, c: Char, d: Char, e: Char)
    ensures DecBlock(st, [c, d, e]) == DecOut(st, c) + DecOut(DecNext(st, c), d) + DecOut(DecNext(DecNext(st, c), d), e)
    ensures DecAfter(st, [c, d, e]) == DecNext(DecNext(DecNext(st, c), d), e)
  {
    hide *;
    assert [c, d, e] == [c, d] + [e];
    DecSnoc(st, [c, d], e);
    DecTwo(st, c, d);
  }

  lemma DecFour(st: DecState, c: Char, d: Char, e: Char, f: Char)
    ensures DecBlock(st, [c, d, e, f])
            == DecOut(st, c) + DecOut(DecNext(st, c), d) + DecOut(DecNext(DecNext(st, c), d), e)
               + DecOut(DecNext(DecNext(DecNext(st, c), d), e), f)
    ensures DecAfter(st, [c, d, e, f]) == DecNext(DecNext(DecNext(DecNext(st, c), d), e), f)
  {
    hide *;
    assert [c, d, e, f] == [c, d, e] + [f];
    DecSnoc(st, [c, d, e], f);
    DecThree(st, c, d, e);
  }

  // The states of the decoder after the first digits of a group, and one step from each.

  function HeldB(u: Char): DecState { DecState(SB, u << 2) }
  function HeldC(v: Char): DecState { DecState(SC, v << 4) }
  function HeldD(w: Char): DecState { DecState(SD, w << 6) }

  lemma FromSA(st: DecState, c: Char)
    requires st.step == SA && IsDigit(c)
    ensures DecOut(st, c) == [] && DecNext(st, c) == HeldB(DecodeValue(c))
  {
    hide DecodeValue, EncodeValue;
    EncodeDecode(c);
  }

  lemma FromSB(u: Char, c: Char)
    requires u < 64 && IsDigit(c)
    ensures DecOut(HeldB(u), c) == [Byte16(u, DecodeValue(c))]
    ensures DecNext(HeldB(u), c) == HeldC(DecodeValue(c))
  {
    hide DecodeValue, EncodeValue;
    EncodeDecode(c);
  }

  lemma FromSC(v: Char, c: Char)
    requires v < 64 && IsDigit(c)
    ensures DecOut(HeldC(v), c) == [Byte8(v, DecodeValue(c))]
    ensures DecNext(HeldC(v), c) == HeldD(DecodeValue(c))
  {
    hide DecodeValue, EncodeValue;
    EncodeDecode(c);
  }

  lemma FromSD(w: Char, c: Char)
    requires w < 64 && IsDigit(c)
    ensures DecOut(HeldD(w), c) == [Byte0(w, DecodeValue(c))]
    ensures DecNext(HeldD(w), c) == DEC_INIT
  {
    hide DecodeValue, EncodeValue;
    EncodeDecode(c);
  }

  /** What the decoder makes of a group's digits, or of its first ones. */
  lemma DigitsDecoded(st: DecState, c: Char, d: Char, e: Char, f: Char)
    requires st.step == SA && IsDigit(c) && IsDigit(d) && IsDigit(e) && IsDigit(f)
    ensures var u, v, w, x := DecodeValue(c), DecodeValue(d), DecodeValue(e), DecodeValue(f);
            && DecBlock(st, [c, d, e, f]) == [Byte16(u, v), Byte8(v, w), Byte0(w, x)]
            && DecAfter(st, [c, d, e, f]) == DEC_INIT
            && DecBlock(st, [c, d, e]) == [Byte16(u, v), Byte8(v, w)]
            && DecBlock(st, [c, d]) == [Byte16(u, v)]
  {
    hide *;
    DecFour(st, c, d, e, f);
    DecThree(st, c, d, e);
    DecTwo(st, c, d);
    EncodeDecode(c);
    EncodeDecode(d);
    EncodeDecode(e);
    FromSA(st, c);
    FromSB(DecodeValue(c), d);
    FromSC(DecodeValue(d), e);
    FromSD(DecodeValue(e), f);
  }

  lemma BytesBack(a: Char, b: Char, c: Char)
    ensures Byte16(Six18(a), Six12(a, b)) == a
    ensures Byte8(Six12(a, b), Six6(b, c)) == b
    ensures Byte0(Six6(b, c), Six0(c)) == c
  {
  }

  lemma SixesBack(u: Char, v: Char, w: Char, x: Char)
    requires u < 64 && v < 64 && w < 64 && x < 64
    ensures Six18(Byte16(u, v)) == u
    ensures Six12(Byte16(u, v), Byte8(v, w)) == v
    ensures Six6(Byte8(v, w), Byte0(w, x)) == w
    ensures Six0(Byte0(w, x)) == x
    ensures Six12(Byte16(u, v), 0) == v <==> v & 0x0f == 0
    ensures Six6(Byte8(v, w), 0) == w <==> w & 0x03 == 0
  {
  }

  lemma DigitBack(g: bv24, shift: bv5)
    requires shift <= 18
    ensures DecodeValue(Digit(g, shift)) == ((g >> shift) & 0x3f) as Char
    ensures IsDigit(Digit(g, shift))
  {
    hide EncodeValue, DecodeValue;
    DecodeEncode(((g >> shift) & 0x3f) as Char);
  }

  lemma GroupDigits(a: Char, b: Char, c: Char)
    ensures var g := Bits(a, b, c);
            && DecodeValue(Digit(g, 18)) == Six18(a) && DecodeValue(Digit(g, 12)) == Six12(a, b)
            && DecodeValue(Digit(g, 6)) == Six6(b, c) && DecodeValue(Digit(g, 0)) == Six0(c)
            && IsDigit(Digit(g, 18)) && IsDigit(Digit(g, 12)) && IsDigit(Digit(g, 6)) && IsDigit(Digit(g, 0))
  {
    hide DecodeValue, IsDigit, Digit, Bits, Six18, Six12, Six6, Six0;
    var g := Bits(a, b, c);
    GroupBits(a, b, c);
    DigitBack(g, 18);
    DigitBack(g, 12);
    DigitBack(g, 6);
    DigitBack(g, 0);
  }

  /** A group's four digits decode to its three bytes, its first three to two, its first two to one. */
  lemma GroupDecoded(st: DecState, a: Char, b: Char, c: Char)
    requires st.step == SA
    ensures var g := Bits(a, b, c);
            && DecBlock(st, [Digit(g, 18), Digit(g, 12), Digit(g, 6), Digit(g, 0)]) == [a, b, c]
            && DecAfter(st, [Digit(g, 18), Digit(g, 12), Digit(g, 6), Digit(g, 0)]) == DEC_INIT
            && DecBlock(st, [Digit(g, 18), Digit(g, 12), Digit(g, 6)]) == [a, b]
            && DecBlock(st, [Digit(g, 18), Digit(g, 12)]) == [a]
  {
    hide *;
    var g := Bits(a, b, c);
    GroupDigits(a, b, c);
    DigitsDecoded(st, Digit(g, 18), Digit(g, 12), Digit(g, 6), Digit(g, 0));
    BytesBack(a, b, c);
  }

  lemma PadSkipped(st: DecState, cs: seq<Char>)
    ensures DecBlock(st, cs + [PAD]) == DecBlock(st, cs)
    ensures DecAfter(st, cs + [PAD]) == DecAfter(st, cs)
  {
    hide DecBlock, DecAfter, DecNext, DecOut;
    DecSnoc(st, cs, PAD);
    NotADigit(DecAfter(st, cs), PAD) by {
      DecodeRanges(PAD);
    }
  }

  lemma {:induction false} DecodesRfc4648(st: DecState, bs: seq<Char>)
    requires st.step == SA
    ensures DecBlock(st, Rfc4648(bs)) == bs
    decreases |bs|
  {
    hide DecBlock, DecAfter, Digit, Bits;
    if bs == [] {
      DecNothing(st);
    } else if |bs| == 1 {
      var g := Bits(bs[0], 0, 0);
      var code := [Digit(g, 18), Digit(g, 12)];
      assert Rfc4648(bs) == code + [PAD] + [PAD];
      PadSkipped(st, code + [PAD]);
      PadSkipped(st, code);
      GroupDecoded(st, bs[0], 0, 0);
    } else if |bs| == 2 {
      var g := Bits(bs[0], bs[1], 0);
      var code := [Digit(g, 18), Digit(g, 12), Digit(g, 6)];
      assert Rfc4648(bs) == code + [PAD];
      PadSkipped(st, code);
      GroupDecoded(st, bs[0], bs[1], 0);
    } else {
      var g := Bits(bs[0], bs[1], bs[2]);
      var code := [Digit(g, 18), Digit(g, 12), Digit(g, 6), Digit(g, 0)];
      GroupDecoded(st, bs[0], bs[1], bs[2]);
      DecSplit(st, code, Rfc4648(bs[3..]));
      DecodesRfc4648(DecAfter(st, code), bs[3..]);
    }
  }

  /** Bytes encoded in any blocks, carried with any other characters put between the digits or
      the padding taken away, and decoded in any blocks, come back. */
  lemma RoundTrip(plain: seq<seq<Char>>, code: seq<seq<Char>>)
    requires Digits(Joined(code)) == Digits(Encoded(ENC_INIT, plain))
    ensures Decoded(DEC_INIT, code) == Joined(plain)
  {
    hide DecBlock, Encoded, Decoded, Digits;
    StreamIsRfc4648(plain);
    DecodedAnyChunks(DEC_INIT, code);
    OnlyDigits(DEC_INIT, Joined(code));
    OnlyDigits(DEC_INIT, Rfc4648(Joined(plain)));
    DecodesRfc4648(DEC_INIT, Joined(plain));
  }

  /** Examples of section 10 of RFC 4648: "Zg==", "Zm8=" and "Zm9v" for "f", "fo" and "foo". */
  lemma Rfc4648Examples()
    ensures Rfc4648([0x66]) == [0x5a, 0x67, 0x3d, 0x3d]
    ensures Rfc4648([0x66, 0x6f]) == [0x5a, 0x6d, 0x38, 0x3d]
    ensures Rfc4648([0x66, 0x6f, 0x6f]) == [0x5a, 0x6d, 0x39, 0x76]
  {
    hide EncodeValue;
    EncodeRanges(25);
    EncodeRanges(32);
    EncodeRanges(38);
    EncodeRanges(60);
    EncodeRanges(61);
    EncodeRanges(47);
    assert Bits(0x66, 0, 0) == 0x660000 && Bits(0x66, 0x6f, 0) == 0x666f00 && Bits(0x66, 0x6f, 0x6f) == 0x666f6f;
    SixBits();
    assert Rfc4648([]) == [];
  }

  lemma SixBits()
    ensures Digit(0x660000, 18) == EncodeValue(25) && Digit(0x660000, 12) == EncodeValue(32)
    ensures Digit(0x666f00, 18) == EncodeValue(25) && Digit(0x666f00, 12) == EncodeValue(38)
    ensures Digit(0x666f00, 6) == EncodeValue(60)
    ensures Digit(0x666f6f, 18) == EncodeValue(25) && Digit(0x666f6f, 12) == EncodeValue(38)
    ensures Digit(0x666f6f, 6) == EncodeValue(61) && Digit(0x666f6f, 0) == EncodeValue(47)
  {
    hide EncodeValue;
  }

  // ----- which digits are an encoding

  predicate AllDigits(ds: seq<Char>) {
    forall i :: 0 <= i < |ds| ==> IsDigit(ds[i])
  }

  lemma {:induction false} DigitsAreDigits(ds: seq<Char>)
    ensures AllDigits(Digits(ds))
    ensures AllDigits(ds) ==> Digits(ds) == ds
    decreases |ds|
  {
    hide IsDigit, Digits;
    if ds == [] {
      NoDigits();
    } else {
      var most, last := ds[..|ds| - 1], ds[|ds| - 1];
      assert ds == most + [last];
      DigitsStep(most, last);
      DigitsAreDigits(most);
      if AllDigits(ds) {
        assert IsDigit(ds[|ds| - 1]) && AllDigits(most);
      }
    }
  }

  /** The last group is whole, or its spare bits are zero. */
  predicate Canonical(ds: seq<Char>) {
    match |ds| % 4
    case 0 => true
    case 1 => false
    case 2 => DecodeValue(ds[|ds| - 1]) & 0x0f == 0
    case _ => DecodeValue(ds[|ds| - 1]) & 0x03 == 0
  }

  lemma SameDigit(c: Char, d: Char)
    requires IsDigit(c) && IsDigit(d)
    ensures c == d <==> DecodeValue(c) == DecodeValue(d)
  {
    hide DecodeValue, EncodeValue;
    EncodeDecode(c);
    EncodeDecode(d);
  }

  /** The group that four digits decode to has those digits; what fewer digits decode to has
      them if the spare bits are zero. */
  lemma GroupReencoded(c: Char, d: Char, e: Char, f: Char)
    requires IsDigit(c) && IsDigit(d) && IsDigit(e) && IsDigit(f)
    ensures var u, v, w, x := DecodeValue(c), DecodeValue(d), DecodeValue(e), DecodeValue(f);
            var g, three, two := Bits(Byte16(u, v), Byte8(v, w), Byte0(w, x)), Bits(Byte16(u, v), Byte8(v, w), 0),
                                 Bits(Byte16(u, v), 0, 0);
            && Digit(g, 18) == c && Digit(g, 12) == d && Digit(g, 6) == e && Digit(g, 0) == f
            && Digit(three, 18) == c && Digit(three, 12) == d && (Digit(three, 6) == e <==> w & 0x03 == 0)
            && Digit(two, 18) == c && (Digit(two, 12) == d <==> v & 0x0f == 0)
  {
    hide EncodeValue, DecodeValue, IsDigit, Digit, Bits, Byte16, Byte8, Byte0, Six18, Six12, Six6, Six0;
    var u, v, w, x := DecodeValue(c), DecodeValue(d), DecodeValue(e), DecodeValue(f);
    var p, q, r := Byte16(u, v), Byte8(v, w), Byte0(w, x);
    EncodeDecode(c);
    EncodeDecode(d);
    EncodeDecode(e);
    EncodeDecode(f);
    SixesBack(u, v, w, x);
    GroupDigits(p, q, r);
    GroupDigits(p, q, 0);
    GroupDigits(p, 0, 0);
    SameDigit(Digit(Bits(p, q, r), 18), c);
    SameDigit(Digit(Bits(p, q, r), 12), d);
    SameDigit(Digit(Bits(p, q, r), 6), e);
    SameDigit(Digit(Bits(p, q, r), 0), f);
    SameDigit(Digit(Bits(p, q, 0), 18), c);
    SameDigit(Digit(Bits(p, q, 0), 12), d);
    SameDigit(Digit(Bits(p, q, 0), 6), e);
    SameDigit(Digit(Bits(p, 0, 0), 18), c);
    SameDigit(Digit(Bits(p, 0, 0), 12), d);
  }

  lemma WholeGroup(c: Char, d: Char, e: Char, f: Char, rest: seq<Char>)
    requires IsDigit(c) && IsDigit(d) && IsDigit(e) && IsDigit(f)
    ensures Rfc4648(DecBlock(DEC_INIT, [c, d, e, f] + rest)) == [c, d, e, f] + Rfc4648(DecBlock(DEC_INIT, rest))
  {
    hide DecBlock, DecAfter, DecodeValue, IsDigit, Digit, Bits, Byte16, Byte8, Byte0;
    DigitsDecoded(DEC_INIT, c, d, e, f);
    GroupReencoded(c, d, e, f);
    DecSplit(DEC_INIT, [c, d, e, f], rest);
    var group := DecBlock(DEC_INIT, [c, d, e, f]);
    assert (group + DecBlock(DEC_INIT, rest))[3..] == DecBlock(DEC_INIT, rest);
  }

  lemma PadsDropped(cs: seq<Char>)
    ensures Digits(cs + [PAD]) == Digits(cs)
  {
    hide Digits;
    DigitsStep(cs, PAD);
    DecodeRanges(PAD);
  }

  lemma TwoReencoded(c: Char, d: Char)
    requires IsDigit(c) && IsDigit(d)
    ensures Digits(Rfc4648(DecBlock(DEC_INIT, [c, d]))) == [c, d] <==> DecodeValue(d) & 0x0f == 0
  {
    hide Digits, DecBlock, DecAfter, DecodeValue, IsDigit, Digit, Bits, Byte16, Byte8, Byte0;
    DigitsDecoded(DEC_INIT, c, d, c, c);
    GroupReencoded(c, d, c, c);
    var a := Byte16(DecodeValue(c), DecodeValue(d));
    var code := [Digit(Bits(a, 0, 0), 18), Digit(Bits(a, 0, 0), 12)];
    assert Rfc4648([a]) == code + [PAD] + [PAD];
    PadsDropped(code);
    PadsDropped(code + [PAD]);
    GroupDigits(a, 0, 0);
    DigitsAreDigits(code);
  }

  lemma ThreeReencoded(c: Char, d: Char, e: Char)
    requires IsDigit(c) && IsDigit(d) && IsDigit(e)
    ensures Digits(Rfc4648(DecBlock(DEC_INIT, [c, d, e]))) == [c, d, e] <==> DecodeValue(e) & 0x03 == 0
  {
    hide Digits, DecBlock, DecAfter, DecodeValue, IsDigit, Digit, Bits, Byte16, Byte8, Byte0;
    DigitsDecoded(DEC_INIT, c, d, e, c);
    GroupReencoded(c, d, e, c);
    var a, b := Byte16(DecodeValue(c), DecodeValue(d)), Byte8(DecodeValue(d), DecodeValue(e));
    var g := Bits(a, b, 0);
    var code := [Digit(g, 18), Digit(g, 12), Digit(g, 6)];
    assert Rfc4648([a, b]) == code + [PAD];
    PadsDropped(code);
    GroupDigits(a, b, 0);
    DigitsAreDigits(code);
  }

  /** Encoding what digits decode to gives those digits back exactly when they are canonical:
      a lone last digit is lost, and so are spare bits that are not zero. */
  lemma {:induction false} ReencodesDigits(ds: seq<Char>)
    requires AllDigits(ds)
    ensures Digits(Rfc4648(DecBlock(DEC_INIT, ds))) == ds <==> Canonical(ds)
    decreases |ds|
  {
    hide Digits, DecBlock, DecodeValue, IsDigit, Rfc4648;
    if |ds| >= 4 {
      var c, d, e, f, rest := ds[0], ds[1], ds[2], ds[3], ds[4..];
      assert ds == [c, d, e, f] + rest;
      WholeGroup(c, d, e, f, rest);
      DigitsSplit([c, d, e, f], Rfc4648(DecBlock(DEC_INIT, rest)));
      DigitsAreDigits([c, d, e, f]);
      ReencodesDigits(rest);
    } else if |ds| == 3 {
      assert ds == [ds[0], ds[1], ds[2]];
      ThreeReencoded(ds[0], ds[1], ds[2]);
    } else if |ds| == 2 {
      assert ds == [ds[0], ds[1]];
      TwoReencoded(ds[0], ds[1]);
    } else {
      FewDigits(ds);
    }
  }

  lemma FewDigits(ds: seq<Char>)
    requires |ds| < 2
    ensures Digits(Rfc4648(DecBlock(DEC_INIT, ds))) == []
  {
    hide IsDigit, DecodeValue;
    if ds == [] {
    } else {
      assert ds[..0] == [];
    }
  }

  /** The same for any characters: they carry an encoding exactly when their digits are canonical. */
  lemma Reencodes(cs: seq<Char>)
    ensures Digits(Rfc4648(DecBlock(DEC_INIT, cs))) == Digits(cs) <==> Canonical(Digits(cs))
  {
    hide DecBlock, Digits, Rfc4648;
    OnlyDigits(DEC_INIT, cs);
    DigitsAreDigits(cs);
    ReencodesDigits(Digits(cs));
  }
}
