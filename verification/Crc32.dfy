/** The table-driven CRC of `tools/website-capture-png.ts`, against the bit-at-a-time CRC of
    RFC 2083 section 3.4: all ones at the start, least significant bit of each byte first,
    complemented at the end. A 32-bit word is its 32 bits, least significant first. */
module Crc32 {
  import opened Bytes

  type Word = w: seq<bool> | |w| == 32 witness Bits(0, 32)

  function Bits(n: nat, k: nat): (r: seq<bool>)
    ensures |r| == k
    decreases n, k
  {
    if k == 0 then [] else [n % 2 == 1] + Bits(n / 2, k - 1)
  }

  function Number(s: seq<bool>): nat {
    if s == [] then 0 else (if s[0] then 1 else 0) + 2 * Number(s[1..])
  }

  function Zeros(k: nat): (r: seq<bool>)
    ensures |r| == k
  {
    seq(k, i => false)
  }

  const POLYNOMIAL: Word := Bits(0xedb88320, 32)
  const ALL_ONES: Word := Bits(0xffff_ffff, 32)

  /** The generator of RFC 2083 section 3.4: its terms besides the 32nd power. */
  predicate IsTerm(e: int) { e in {26, 23, 22, 16, 12, 11, 10, 8, 7, 5, 4, 2, 1, 0} }

  /** The bits of a number are those of the word that has it as its value. */
  lemma {:induction false} BitsOfNumber(w: seq<bool>)
    ensures Bits(Number(w), |w|) == w
  {
    if w != [] {
      BitsOfNumber(w[1..]);
    }
  }

  lemma FourDigits(w: seq<bool>, at: nat)
    requires at + 4 <= |w|
    ensures Number(w[at..]) == (if w[at] then 1 else 0) + (if w[at + 1] then 2 else 0) + (if w[at + 2] then 4 else 0)
                               + (if w[at + 3] then 8 else 0) + 16 * Number(w[at + 4..])
  {
    OneDigit(w, at);
    OneDigit(w, at + 1);
    OneDigit(w, at + 2);
    OneDigit(w, at + 3);
    hide Number;
  }

  lemma OneDigit(w: seq<bool>, at: nat)
    requires at < |w|
    ensures Number(w[at..]) == (if w[at] then 1 else 0) + 2 * Number(w[at + 1..])
  {
    assert w[at..][1..] == w[at + 1..];
  }

  function Generator(): Word { seq(32, i requires 0 <= i < 32 => IsTerm(31 - i)) }

  /** Bit 31 of the constant is the constant term; the register starts with ones. */
  lemma GeneratorTerms()
    ensures POLYNOMIAL == Generator() && ALL_ONES == seq(32, i => true)
  {
    var g: Word, ones: Word := Generator(), seq(32, i => true);
    GeneratorNumber(g);
    OnesNumber(ones);
    BitsOfNumber(g);
    BitsOfNumber(ones);
  }

  lemma GeneratorNumber(g: Word)
    requires g == Generator()
    ensures Number(g) == 0xedb88320
  {
    GeneratorHalf(g);
    GeneratorBits(g);
    hide Generator, Number;
    FourDigits(g, 0);
    FourDigits(g, 4);
    FourDigits(g, 8);
    FourDigits(g, 12);
    NoDigits(g);
  }

  lemma GeneratorHalf(g: Word)
    requires g == Generator()
    ensures Number(g[16..]) == 0xedb8
  {
    GeneratorBits(g);
    hide Generator, Number;
    FourDigits(g, 16);
    FourDigits(g, 20);
    FourDigits(g, 24);
    FourDigits(g, 28);
    NoDigits(g);
  }

  lemma NoDigits(w: Word)
    ensures w[0..] == w && Number(w[32..]) == 0
  {}

  lemma GeneratorBits(g: Word)
    requires g == Generator()
    ensures !g[0] && !g[1] && !g[2] && !g[3] && !g[4] && g[5] && !g[6] && !g[7]
    ensures g[8] && g[9] && !g[10] && !g[11] && !g[12] && !g[13] && !g[14] && g[15]
    ensures !g[16] && !g[17] && !g[18] && g[19] && g[20] && g[21] && !g[22] && g[23]
    ensures g[24] && !g[25] && g[26] && g[27] && !g[28] && g[29] && g[30] && g[31]
  {}

  lemma OnesNumber(w: Word)
    requires w == seq(32, i => true)
    ensures Number(w) == 0xffff_ffff
  {
    OnesHalf(w);
    hide Number;
    FourDigits(w, 0);
    FourDigits(w, 4);
    FourDigits(w, 8);
    FourDigits(w, 12);
    NoDigits(w);
  }

  lemma OnesHalf(w: Word)
    requires w == seq(32, i => true)
    ensures Number(w[16..]) == 0xffff
  {
    hide Number;
    FourDigits(w, 16);
    FourDigits(w, 20);
    FourDigits(w, 24);
    FourDigits(w, 28);
    NoDigits(w);
  }

  function Xor(a: Word, b: Word): Word { seq(32, i requires 0 <= i < 32 => a[i] != b[i]) }

  /** `c >>> 1`. */
  function Half(c: Word): Word { c[1..] + [false] }

  /** `c >>> 8`. */
  function Down8(c: Word): Word { c[8..] + Zeros(8) }

  // ----- the reference

  /** The register takes in one message bit. */
  function FeedBit(crc: Word, bit: bool): Word {
    if crc[0] != bit then Xor(POLYNOMIAL, Half(crc)) else Half(crc)
  }

  function FeedBits(crc: Word, bits: seq<bool>): Word
    decreases bits
  {
    if bits == [] then crc else FeedBits(FeedBit(crc, bits[0]), bits[1..])
  }

  /** Every byte gives its eight bits, least significant first. */
  function FeedBytes(crc: Word, data: seq<byte>): Word {
    if data == [] then crc else FeedBits(FeedBytes(crc, data[..|data| - 1]), Bits(data[|data| - 1], 8))
  }

  function Reference(data: seq<byte>): Word {
    Xor(FeedBytes(ALL_ONES, data), ALL_ONES)
  }

  // ----- runs of shifts with no message bit

  /** One step of the table construction. */
  function Shift(c: Word): Word {
    if c[0] then Xor(POLYNOMIAL, Half(c)) else Half(c)
  }

  function Shifts(c: Word, k: nat): Word
    decreases |c|, k
  {
    if k == 0 then c else Shifts(Shift(c), k - 1)
  }

  lemma XorShuffled(p: Word, x: Word, y: Word)
    ensures Xor(Xor(p, x), y) == Xor(p, Xor(x, y)) == Xor(x, Xor(p, y))
    ensures Xor(Xor(p, x), Xor(p, y)) == Xor(x, y)
  {}

  lemma HalfLinear(a: Word, b: Word)
    ensures Half(Xor(a, b)) == Xor(Half(a), Half(b)) && Xor(a, b)[0] == (a[0] != b[0])
  {}

  lemma ShiftLinear(a: Word, b: Word)
    ensures Shift(Xor(a, b)) == Xor(Shift(a), Shift(b))
  {
    hide Xor, Half;
    HalfLinear(a, b);
    XorShuffled(POLYNOMIAL, Half(a), Half(b));
  }

  /** Eight shifts, or any number of them, are linear over exclusive or. */
  lemma {:induction false} ShiftsLinear(a: Word, b: Word, k: nat)
    ensures Shifts(Xor(a, b), k) == Xor(Shifts(a, k), Shifts(b, k))
    decreases k
  {
    if k > 0 {
      ShiftLinear(a, b);
      ShiftsLinear(Shift(a), Shift(b), k - 1);
    }
  }

  /** A word whose low bits are clear is only moved down. */
  lemma {:induction false} ShiftsClear(c: Word, k: nat)
    requires k <= 32 && forall i :: 0 <= i < k ==> !c[i]
    ensures Shifts(c, k) == c[k..] + Zeros(k)
    decreases k
  {
    if k > 0 {
      ShiftsClear(Half(c), k - 1);
      assert Half(c)[k - 1..] + Zeros(k - 1) == c[k..] + Zeros(k);
    } else {
      assert c[0..] + Zeros(0) == c;
    }
  }

  function Padded(bits: seq<bool>): Word
    requires |bits| <= 32
  {
    bits + Zeros(32 - |bits|)
  }

  lemma XorAssociates(a: Word, b: Word, c: Word)
    ensures Xor(a, Xor(b, c)) == Xor(Xor(a, b), c)
  {}

  lemma ShiftFeedsBit(c: Word, bits: seq<bool>)
    requires 0 < |bits| <= 32
    ensures Shift(Xor(c, Padded(bits))) == Xor(FeedBit(c, bits[0]), Padded(bits[1..]))
  {
    var rest := Padded(bits[1..]);
    assert Half(Padded(bits)) == rest;
    assert Half(Xor(c, Padded(bits))) == Xor(Half(c), rest);
    assert Xor(c, Padded(bits))[0] == (c[0] != bits[0]);
    XorAssociates(POLYNOMIAL, Half(c), rest);
  }

  /** Mixing all the bits in first and then shifting is feeding them one at a time. */
  lemma {:induction false} ShiftsFeedBits(c: Word, bits: seq<bool>)
    requires |bits| <= 32
    ensures Shifts(Xor(c, Padded(bits)), |bits|) == FeedBits(c, bits)
    decreases bits
  {
    hide Xor, Padded, Shift, FeedBit;
    if bits == [] {
      XorPaddedNothing(c);
    } else {
      ShiftFeedsBit(c, bits);
      ShiftsFeedBits(FeedBit(c, bits[0]), bits[1..]);
    }
  }

  lemma XorPaddedNothing(c: Word)
    ensures Xor(c, Padded([])) == c
  {}

  // ----- the table lookup

  /** The table entry for a byte index: the byte's bits, shifted eight times. */
  function Entry(low: seq<bool>): Word
    requires |low| == 8
  {
    Shifts(Padded(low), 8)
  }

  /** One iteration of the table-driven loop takes in one whole byte. */
  lemma TableStep(crc: Word, bits: seq<bool>)
    requires |bits| == 8
    ensures var x := Xor(crc, Padded(bits));
            Xor(Entry(x[..8]), Down8(crc)) == FeedBits(crc, bits)
  {
    var x := Xor(crc, Padded(bits));
    var high := Zeros(8) + x[8..];
    assert x == Xor(Padded(x[..8]), high);
    ShiftsLinear(Padded(x[..8]), high, 8);
    ShiftsClear(high, 8);
    assert high[8..] + Zeros(8) == Down8(crc);
    ShiftsFeedBits(crc, bits);
  }

  lemma {:induction false} BitsNumber(s: seq<bool>)
    ensures Bits(Number(s), |s|) == s
  {
    if s != [] {
      BitsNumber(s[1..]);
    }
  }

  lemma {:induction false} NumberBound(s: seq<bool>, k: nat)
    requires |s| <= k
    ensures Number(s) < Power2(k)
    decreases k
  {
    if s != [] {
      NumberBound(s[1..], k - 1);
    }
  }

  function Power2(k: nat): (r: nat)
    ensures r >= 1
  {
    if k == 0 then 1 else 2 * Power2(k - 1)
  }

  lemma TwiceProduct(a: int, b: int)
    ensures a * (2 * b) == 2 * (a * b)
  {}

  lemma {:induction false} Power2Sum(j: nat, k: nat)
    ensures Power2(j + k) == Power2(j) * Power2(k)
    decreases k
  {
    if k > 0 {
      Power2Sum(j, k - 1);
      assert Power2(j + k) == 2 * Power2(j + k - 1) && Power2(k) == 2 * Power2(k - 1);
      TwiceProduct(Power2(j), Power2(k - 1));
    }
  }

  lemma WordBound(w: Word)
    ensures Number(w) < 0x1_0000_0000
  {
    NumberBound(w, 32);
    Power2Sum(8, 8);
    Power2Sum(16, 16);
    assert Power2(8) == 0x100;
  }

  lemma {:induction false} BitsPadded(n: nat, k: nat, m: nat)
    requires n < Power2(k)
    ensures Bits(n, k + m) == Bits(n, k) + Zeros(m)
    decreases k + m
  {
    if k > 0 {
      BitsPadded(n / 2, k - 1, m);
      assert Bits(n, k + m) == [n % 2 == 1] + (Bits(n / 2, k - 1) + Zeros(m));
    } else if m > 0 {
      BitsPadded(n, 0, m - 1);
      assert Zeros(m) == [false] + Zeros(m - 1);
    }
  }

  /** What the table holds at index `n`. */
  function Entries(n: nat): Word {
    Shifts(Bits(n, 32), 8)
  }

  predicate IsTable(table: seq<Word>) {
    |table| == 256 && forall n :: 0 <= n < 256 ==> table[n] == Entries(n)
  }

  /** One entry, shifted in place `count` times. */
  method MakeEntry(start: Word, count: nat) returns (c: Word)
    ensures c == Shifts(start, count)
  {
    c := start;
    for k := 0 to count
      invariant Shifts(c, count - k) == Shifts(start, count)
    {
      c := Shift(c);
    }
  }

  method MakeTable() returns (table: array<Word>)
    ensures fresh(table) && IsTable(table[..])
  {
    table := new Word[256];
    for n := 0 to table.Length
      invariant forall m :: 0 <= m < n ==> table[m] == Entries(m)
    {
      table[n] := MakeEntry(Bits(n, 32), 8);
    }
  }

  /** `crcTable[(crc ^ byte) & 0xff] ^ (crc >>> 8)` takes in the whole byte. */
  method Step(table: array<Word>, crc: Word, b: byte) returns (r: Word)
    requires IsTable(table[..])
    ensures r == FeedBits(crc, Bits(b, 8))
  {
    assert Power2(8) == 256;
    BitsPadded(b, 8, 24);
    var x := Xor(crc, Bits(b, 32));
    TableStep(crc, Bits(b, 8));
    NumberBound(x[..8], 8);
    var n := Number(x[..8]);
    BitsNumber(x[..8]);
    BitsPadded(n, 8, 24);
    assert table[..][n] == Entries(n);
    r := Xor(table[n], Down8(crc));
  }

  /** The loop over the message, equal to the bit-at-a-time reference on every input. */
  method Compute(data: seq<byte>) returns (r: Word)
    ensures r == Reference(data)
  {
    var table := MakeTable();
    var crc: Word := ALL_ONES;
    for i := 0 to |data|
      invariant crc == FeedBytes(ALL_ONES, data[..i])
      invariant IsTable(table[..])
    {
      crc := Step(table, crc, data[i]);
      assert data[..i + 1][..i] == data[..i];
    }
    assert data[..|data|] == data;
    r := Xor(crc, ALL_ONES);
  }
}
