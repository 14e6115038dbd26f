/** What the base64 coders compute: step functions over single characters, their runs, and
    section 4 of RFC 4648 as the reference. */
module Base64 {

  type Char = bv8

  const PAD: Char := 61

  /** The digits. */
  const ALPHABET: string :=
    "ABCDEFGHIJKLM" + "NOPQRSTUVWXYZ" + "abcdefghijklm" + "nopqrstuvwxyz" + "0123456789+/"

  /** The decoding table; its first entry is for '+'. */
  const DECODING: seq<int> :=
    [62, -1, -1, -1, 63, 52, 53, 54, 55, 56, 57, 58, 59, 60, 61, -1, -1, -1] +
    [-2, -1, -1, -1, 0, 1, 2, 3, 4, 5, 6, 7, 8, 9, 10, 11, 12] +
    [13, 14, 15, 16, 17, 18, 19, 20, 21, 22, 23, 24, 25, -1, -1, -1, -1, -1, -1] +
    [26, 27, 28, 29, 30, 31, 32, 33, 34, 35, 36, 37, 38] +
    [39, 40, 41, 42, 43, 44, 45, 46, 47, 48, 49, 50, 51]

  /** The digit of a six-bit value. */
  function EncodeValue(v: Char): Char {
    if v > 63 then PAD else ALPHABET[v as int] as int as Char
  }

  function TableEntry(i: nat): int
    requires i < 80
  {
    DECODING[i]
  }

  /** The six-bit value of a digit. The subtraction wraps; a character outside the table, and
      one that is no digit, gives a value with the top bit set, which is negative as a signed
      character. */
  function DecodeValue(c: Char): Char {
    var i := c - 43;
    if i >= 80 then 255 else (TableEntry(i as int) % 256) as Char
  }

  predicate IsDigit(c: Char) { DecodeValue(c) < 128 }

  /** The alphabet is that of section 4 of RFC 4648: A-Z, a-z, 0-9, + and /. */
  lemma EncodeRanges(v: Char)
    requires v < 64
    ensures EncodeValue(v) == if v < 26 then v + 65 else if v < 52 then v + 71
                              else if v < 62 then v - 4 else if v == 62 then 43 else 47
  {
    if v < 26 {
      assert (v + 65) as int == v as int + 65;
    } else if v < 52 {
      assert (v + 71) as int == v as int + 71;
    } else if v < 62 {
      assert (v - 4) as int == v as int - 4;
    }
  }

  lemma UpperEntries(i: nat)
    requires 22 <= i < 48
    ensures TableEntry(i) == i - 22
  {
  }

  lemma LowerEntries(i: nat)
    requires 54 <= i < 80
    ensures TableEntry(i) == i - 28
  {
  }

  lemma NumeralEntries(i: nat)
    requires 5 <= i < 15
    ensures TableEntry(i) == i + 47
  {
  }

  lemma SignEntries(i: nat)
    requires i < 22 && !(5 <= i < 15)
    ensures TableEntry(i) == if i == 0 then 62 else if i == 4 then 63 else if i == 18 then -2 else -1
  {
  }

  lemma GapEntries(i: nat)
    requires 48 <= i < 54
    ensures TableEntry(i) == -1
  {
  }

  // The wrapping operations do not wrap here.

  lemma UpperFits(i: Char)
    requires 22 <= i < 48
    ensures (i - 22) as int == i as int - 22 && 22 <= i as int < 48
  {
  }

  lemma LowerFits(i: Char)
    requires 54 <= i < 80
    ensures (i - 28) as int == i as int - 28 && 54 <= i as int < 80
  {
  }

  lemma NumeralFits(i: Char)
    requires 5 <= i < 15
    ensures (i + 47) as int == i as int + 47 && 5 <= i as int < 15
  {
  }

  lemma DecodeUpper(c: Char)
    requires 65 <= c <= 90
    ensures DecodeValue(c) == c - 65
  {
    hide TableEntry;
    var i := c - 43;
    UpperFits(i);
    UpperEntries(i as int);
    assert DecodeValue(c) == ((i - 22) as int) as Char;
  }

  lemma DecodeLower(c: Char)
    requires 97 <= c <= 122
    ensures DecodeValue(c) == c - 71
  {
    hide TableEntry;
    var i := c - 43;
    LowerFits(i);
    LowerEntries(i as int);
    assert DecodeValue(c) == ((i - 28) as int) as Char;
  }

  lemma DecodeNumeral(c: Char)
    requires 48 <= c <= 57
    ensures DecodeValue(c) == c + 4
  {
    hide TableEntry;
    var i := c - 43;
    NumeralFits(i);
    NumeralEntries(i as int);
    assert DecodeValue(c) == ((i + 47) as int) as Char;
  }

  lemma DecodeSign(c: Char)
    requires 43 <= c < 65 && !(48 <= c <= 57)
    ensures DecodeValue(c) == if c == 43 then 62 else if c == 47 then 63
                              else if c == PAD then 254 else 255
  {
    hide TableEntry;
    SignEntries((c - 43) as int);
  }

  lemma DecodeGap(c: Char)
    requires 91 <= c <= 96
    ensures DecodeValue(c) == 255
  {
    hide TableEntry;
    GapEntries((c - 43) as int);
  }

  /** Exactly the digits have a six-bit value. */
  lemma DecodeRanges(c: Char)
    ensures DecodeValue(c) == if 65 <= c <= 90 then c - 65 else if 97 <= c <= 122 then c - 71
                              else if 48 <= c <= 57 then c + 4 else if c == 43 then 62
                              else if c == 47 then 63 else if c == PAD then 254 else 255
  {
    hide TableEntry;
    if 65 <= c <= 90 {
      DecodeUpper(c);
    } else if 97 <= c <= 122 {
      DecodeLower(c);
    } else if 48 <= c <= 57 {
      DecodeNumeral(c);
    } else if 43 <= c < 65 {
      DecodeSign(c);
    } else if 91 <= c <= 96 {
      DecodeGap(c);
    }
  }

  lemma DecodeEncode(v: Char)
    requires v < 64
    ensures DecodeValue(EncodeValue(v)) == v && EncodeValue(v) != PAD
  {
    hide EncodeValue, DecodeValue;
    EncodeRanges(v);
    DecodeRanges(EncodeValue(v));
  }

  lemma EncodeDecode(c: Char)
    requires IsDigit(c)
    ensures DecodeValue(c) < 64 && EncodeValue(DecodeValue(c)) == c
  {
    hide EncodeValue, DecodeValue;
    DecodeRanges(c);
    EncodeRanges(DecodeValue(c));
  }

  // ----- encoding

  datatype EncStep = A | B | C

  datatype EncState = EncState(step: EncStep, result: Char)

  const ENC_INIT: EncState := EncState(A, 0)

  function EncNext(st: EncState, b: Char): EncState {
    match st.step
    case A => EncState(B, (b & 0x03) << 4)
    case B => EncState(C, (b & 0x0f) << 2)
    case C => EncState(A, b & 0x3f)
  }

  function EncOut(st: EncState, b: Char): seq<Char> {
    match st.step
    case A => [EncodeValue((b & 0xfc) >> 2)]
    case B => [EncodeValue(st.result | ((b & 0xf0) >> 4))]
    case C => [EncodeValue(st.result | ((b & 0xc0) >> 6)), EncodeValue(b & 0x3f)]
  }

  /** The state after a block of bytes. */
  function EncAfter(st: EncState, bs: seq<Char>): EncState
    decreases |bs|
  {
    if bs == [] then st else EncNext(EncAfter(st, bs[..|bs| - 1]), bs[|bs| - 1])
  }

  /** The characters for a block of bytes. */
  function EncBlock(st: EncState, bs: seq<Char>): seq<Char>
    decreases |bs|
  {
    if bs == [] then []
    else EncBlock(st, bs[..|bs| - 1]) + EncOut(EncAfter(st, bs[..|bs| - 1]), bs[|bs| - 1])
  }

  function EncEnd(st: EncState): seq<Char> {
    match st.step
    case A => []
    case B => [EncodeValue(st.result), PAD, PAD]
    case C => [EncodeValue(st.result), PAD]
  }

  /** Section 4 of RFC 4648: groups of 24 bits, cut into four digits; the last group is filled
      with zero bits and the missing digits are padding. */
  function Rfc4648(bs: seq<Char>): seq<Char>
    decreases |bs|
  {
    if bs == [] then []
    else if |bs| == 1 then
      var g := Bits(bs[0], 0, 0);
      [Digit(g, 18), Digit(g, 12), PAD, PAD]
    else if |bs| == 2 then
      var g := Bits(bs[0], bs[1], 0);
      [Digit(g, 18), Digit(g, 12), Digit(g, 6), PAD]
    else
      var g := Bits(bs[0], bs[1], bs[2]);
      [Digit(g, 18), Digit(g, 12), Digit(g, 6), Digit(g, 0)] + Rfc4648(bs[3..])
  }

  function Bits(a: Char, b: Char, c: Char): bv24 {
    ((a as bv24) << 16) | ((b as bv24) << 8) | (c as bv24)
  }

  function Digit(g: bv24, shift: bv5): Char
    requires shift <= 18
  {
    EncodeValue(((g >> shift) & 0x3f) as bv8)
  }

  // ----- decoding

  datatype DecStep = SA | SB | SC | SD

  datatype DecState = DecState(step: DecStep, acc: Char)

  const DEC_INIT: DecState := DecState(SA, 0)

  /** At step SA no bits are pending. */
  function Clean(st: DecState): DecState {
    if st.step == SA then DEC_INIT else st
  }

  /** The bits that a digit's value leaves for the next byte. */
  function Begun(step: DecStep, v: Char): Char {
    match step
    case SA => (v & 0x3f) << 2
    case SB => (v & 0x0f) << 4
    case SC => (v & 0x03) << 6
    case SD => 0
  }

  function NextStep(step: DecStep): DecStep {
    match step
    case SA => SB
    case SB => SC
    case SC => SD
    case SD => SA
  }

  function DecNext(st: DecState, c: Char): DecState {
    if !IsDigit(c) then st else DecState(NextStep(st.step), Begun(st.step, DecodeValue(c)))
  }

  /** The byte that a digit's value completes. */
  function Completed(st: DecState, v: Char): Char
    requires st.step != SA
  {
    match st.step
    case SB => st.acc | ((v & 0x30) >> 4)
    case SC => st.acc | ((v & 0x3c) >> 2)
    case SD => st.acc | (v & 0x3f)
  }

  function DecOut(st: DecState, c: Char): (out: seq<Char>)
    ensures |out| <= 1
  {
    if !IsDigit(c) || st.step == SA then [] else [Completed(st, DecodeValue(c))]
  }

  /** The state after a block of characters. */
  function DecAfter(st: DecState, cs: seq<Char>): DecState
    decreases |cs|
  {
    if cs == [] then st else DecNext(DecAfter(st, cs[..|cs| - 1]), cs[|cs| - 1])
  }

  /** The bytes for a block of characters. */
  function DecBlock(st: DecState, cs: seq<Char>): seq<Char>
    decreases |cs|
  {
    if cs == [] then []
    else DecBlock(st, cs[..|cs| - 1]) + DecOut(DecAfter(st, cs[..|cs| - 1]), cs[|cs| - 1])
  }

  /** The digits among the characters. */
  function Digits(cs: seq<Char>): seq<Char>
    decreases |cs|
  {
    if cs == [] then [] else Digits(cs[..|cs| - 1]) + (if IsDigit(cs[|cs| - 1]) then [cs[|cs| - 1]] else [])
  }
}
