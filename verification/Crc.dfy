/** CRC-16 with the polynomial 0x1021: the table form, bit-serial division, and what the code detects. */
module Crc {

  function Row0(i: bv8): bv16 {
    if i == 0 then 0x0000 else if i == 1 then 0x1021 else if i == 2 then 0x2042 else if i == 3 then 0x3063
    else if i == 4 then 0x4084 else if i == 5 then 0x50a5 else if i == 6 then 0x60c6 else if i == 7 then 0x70e7
    else if i == 8 then 0x8108 else if i == 9 then 0x9129 else if i == 10 then 0xa14a else if i == 11 then 0xb16b
    else if i == 12 then 0xc18c else if i == 13 then 0xd1ad else if i == 14 then 0xe1ce else 0xf1ef
  }

  function Row1(i: bv8): bv16 {
    if i == 0 then 0x1231 else if i == 1 then 0x0210 else if i == 2 then 0x3273 else if i == 3 then 0x2252
    else if i == 4 then 0x52b5 else if i == 5 then 0x4294 else if i == 6 then 0x72f7 else if i == 7 then 0x62d6
    else if i == 8 then 0x9339 else if i == 9 then 0x8318 else if i == 10 then 0xb37b else if i == 11 then 0xa35a
    else if i == 12 then 0xd3bd else if i == 13 then 0xc39c else if i == 14 then 0xf3ff else 0xe3de
  }

  function Row2(i: bv8): bv16 {
    if i == 0 then 0x2462 else if i == 1 then 0x3443 else if i == 2 then 0x0420 else if i == 3 then 0x1401
    else if i == 4 then 0x64e6 else if i == 5 then 0x74c7 else if i == 6 then 0x44a4 else if i == 7 then 0x5485
    else if i == 8 then 0xa56a else if i == 9 then 0xb54b else if i == 10 then 0x8528 else if i == 11 then 0x9509
    else if i == 12 then 0xe5ee else if i == 13 then 0xf5cf else if i == 14 then 0xc5ac else 0xd58d
  }

  function Row3(i: bv8): bv16 {
    if i == 0 then 0x3653 else if i == 1 then 0x2672 else if i == 2 then 0x1611 else if i == 3 then 0x0630
    else if i == 4 then 0x76d7 else if i == 5 then 0x66f6 else if i == 6 then 0x5695 else if i == 7 then 0x46b4
    else if i == 8 then 0xb75b else if i == 9 then 0xa77a else if i == 10 then 0x9719 else if i == 11 then 0x8738
    else if i == 12 then 0xf7df else if i == 13 then 0xe7fe else if i == 14 then 0xd79d else 0xc7bc
  }

  function Row4(i: bv8): bv16 {
    if i == 0 then 0x48c4 else if i == 1 then 0x58e5 else if i == 2 then 0x6886 else if i == 3 then 0x78a7
    else if i == 4 then 0x0840 else if i == 5 then 0x1861 else if i == 6 then 0x2802 else if i == 7 then 0x3823
    else if i == 8 then 0xc9cc else if i == 9 then 0xd9ed else if i == 10 then 0xe98e else if i == 11 then 0xf9af
    else if i == 12 then 0x8948 else if i == 13 then 0x9969 else if i == 14 then 0xa90a else 0xb92b
  }

  function Row5(i: bv8): bv16 {
    if i == 0 then 0x5af5 else if i == 1 then 0x4ad4 else if i == 2 then 0x7ab7 else if i == 3 then 0x6a96
    else if i == 4 then 0x1a71 else if i == 5 then 0x0a50 else if i == 6 then 0x3a33 else if i == 7 then 0x2a12
    else if i == 8 then 0xdbfd else if i == 9 then 0xcbdc else if i == 10 then 0xfbbf else if i == 11 then 0xeb9e
    else if i == 12 then 0x9b79 else if i == 13 then 0x8b58 else if i == 14 then 0xbb3b else 0xab1a
  }

  function Row6(i: bv8): bv16 {
    if i == 0 then 0x6ca6 else if i == 1 then 0x7c87 else if i == 2 then 0x4ce4 else if i == 3 then 0x5cc5
    else if i == 4 then 0x2c22 else if i == 5 then 0x3c03 else if i == 6 then 0x0c60 else if i == 7 then 0x1c41
    else if i == 8 then 0xedae else if i == 9 then 0xfd8f else if i == 10 then 0xcdec else if i == 11 then 0xddcd
    else if i == 12 then 0xad2a else if i == 13 then 0xbd0b else if i == 14 then 0x8d68 else 0x9d49
  }

  function Row7(i: bv8): bv16 {
    if i == 0 then 0x7e97 else if i == 1 then 0x6eb6 else if i == 2 then 0x5ed5 else if i == 3 then 0x4ef4
    else if i == 4 then 0x3e13 else if i == 5 then 0x2e32 else if i == 6 then 0x1e51 else if i == 7 then 0x0e70
    else if i == 8 then 0xff9f else if i == 9 then 0xefbe else if i == 10 then 0xdfdd else if i == 11 then 0xcffc
    else if i == 12 then 0xbf1b else if i == 13 then 0xaf3a else if i == 14 then 0x9f59 else 0x8f78
  }

  function Row8(i: bv8): bv16 {
    if i == 0 then 0x9188 else if i == 1 then 0x81a9 else if i == 2 then 0xb1ca else if i == 3 then 0xa1eb
    else if i == 4 then 0xd10c else if i == 5 then 0xc12d else if i == 6 then 0xf14e else if i == 7 then 0xe16f
    else if i == 8 then 0x1080 else if i == 9 then 0x00a1 else if i == 10 then 0x30c2 else if i == 11 then 0x20e3
    else if i == 12 then 0x5004 else if i == 13 then 0x4025 else if i == 14 then 0x7046 else 0x6067
  }

  function Row9(i: bv8): bv16 {
    if i == 0 then 0x83b9 else if i == 1 then 0x9398 else if i == 2 then 0xa3fb else if i == 3 then 0xb3da
    else if i == 4 then 0xc33d else if i == 5 then 0xd31c else if i == 6 then 0xe37f else if i == 7 then 0xf35e
    else if i == 8 then 0x02b1 else if i == 9 then 0x1290 else if i == 10 then 0x22f3 else if i == 11 then 0x32d2
    else if i == 12 then 0x4235 else if i == 13 then 0x5214 else if i == 14 then 0x6277 else 0x7256
  }

  function RowA(i: bv8): bv16 {
    if i == 0 then 0xb5ea else if i == 1 then 0xa5cb else if i == 2 then 0x95a8 else if i == 3 then 0x8589
    else if i == 4 then 0xf56e else if i == 5 then 0xe54f else if i == 6 then 0xd52c else if i == 7 then 0xc50d
    else if i == 8 then 0x34e2 else if i == 9 then 0x24c3 else if i == 10 then 0x14a0 else if i == 11 then 0x0481
    else if i == 12 then 0x7466 else if i == 13 then 0x6447 else if i == 14 then 0x5424 else 0x4405
  }

  function RowB(i: bv8): bv16 {
    if i == 0 then 0xa7db else if i == 1 then 0xb7fa else if i == 2 then 0x8799 else if i == 3 then 0x97b8
    else if i == 4 then 0xe75f else if i == 5 then 0xf77e else if i == 6 then 0xc71d else if i == 7 then 0xd73c
    else if i == 8 then 0x26d3 else if i == 9 then 0x36f2 else if i == 10 then 0x0691 else if i == 11 then 0x16b0
    else if i == 12 then 0x6657 else if i == 13 then 0x7676 else if i == 14 then 0x4615 else 0x5634
  }

  function RowC(i: bv8): bv16 {
    if i == 0 then 0xd94c else if i == 1 then 0xc96d else if i == 2 then 0xf90e else if i == 3 then 0xe92f
    else if i == 4 then 0x99c8 else if i == 5 then 0x89e9 else if i == 6 then 0xb98a else if i == 7 then 0xa9ab
    else if i == 8 then 0x5844 else if i == 9 then 0x4865 else if i == 10 then 0x7806 else if i == 11 then 0x6827
    else if i == 12 then 0x18c0 else if i == 13 then 0x08e1 else if i == 14 then 0x3882 else 0x28a3
  }

  function RowD(i: bv8): bv16 {
    if i == 0 then 0xcb7d else if i == 1 then 0xdb5c else if i == 2 then 0xeb3f else if i == 3 then 0xfb1e
    else if i == 4 then 0x8bf9 else if i == 5 then 0x9bd8 else if i == 6 then 0xabbb else if i == 7 then 0xbb9a
    else if i == 8 then 0x4a75 else if i == 9 then 0x5a54 else if i == 10 then 0x6a37 else if i == 11 then 0x7a16
    else if i == 12 then 0x0af1 else if i == 13 then 0x1ad0 else if i == 14 then 0x2ab3 else 0x3a92
  }

  function RowE(i: bv8): bv16 {
    if i == 0 then 0xfd2e else if i == 1 then 0xed0f else if i == 2 then 0xdd6c else if i == 3 then 0xcd4d
    else if i == 4 then 0xbdaa else if i == 5 then 0xad8b else if i == 6 then 0x9de8 else if i == 7 then 0x8dc9
    else if i == 8 then 0x7c26 else if i == 9 then 0x6c07 else if i == 10 then 0x5c64 else if i == 11 then 0x4c45
    else if i == 12 then 0x3ca2 else if i == 13 then 0x2c83 else if i == 14 then 0x1ce0 else 0x0cc1
  }

  function RowF(i: bv8): bv16 {
    if i == 0 then 0xef1f else if i == 1 then 0xff3e else if i == 2 then 0xcf5d else if i == 3 then 0xdf7c
    else if i == 4 then 0xaf9b else if i == 5 then 0xbfba else if i == 6 then 0x8fd9 else if i == 7 then 0x9ff8
    else if i == 8 then 0x6e17 else if i == 9 then 0x7e36 else if i == 10 then 0x4e55 else if i == 11 then 0x5e74
    else if i == 12 then 0x2e93 else if i == 13 then 0x3eb2 else if i == 14 then 0x0ed1 else 0x1ef0
  }

  /** The constant table: sixteen rows of sixteen entries, picked by the two halves of the index. */
  function Table(d: bv8): bv16 {
    var i := d & 15;
    match d >> 4
    case 0 => Row0(i)
    case 1 => Row1(i)
    case 2 => Row2(i)
    case 3 => Row3(i)
    case 4 => Row4(i)
    case 5 => Row5(i)
    case 6 => Row6(i)
    case 7 => Row7(i)
    case 8 => Row8(i)
    case 9 => Row9(i)
    case 10 => RowA(i)
    case 11 => RowB(i)
    case 12 => RowC(i)
    case 13 => RowD(i)
    case 14 => RowE(i)
    case _ => RowF(i)
  }

  // ---- Bit-serial division, the reference ----

  /**
   * One shift of the division register: multiply by x and, if the top bit falls out, subtract x^16 + x^12 +
   * x^5 + 1.
   */
  function Shift(c: bv16): bv16 {
    (c << 1) ^ ((c >> 15) * 0x1021)
  }

  /** Feed one message bit. */
  function FeedBit(c: bv16, bit: bool): bv16 {
    Shift(c ^ (if bit then 0x8000 else 0))
  }

  function Feed(c: bv16, bits: seq<bool>): bv16
    decreases |bits|
  {
    if bits == [] then c else Feed(FeedBit(c, bits[0]), bits[1..])
  }

  /** The bits of a byte, most significant first. */
  function ByteBits(b: bv8): (r: seq<bool>)
    ensures |r| == 8
  {
    [b & 0x80 != 0, b & 0x40 != 0, b & 0x20 != 0, b & 0x10 != 0, b & 8 != 0, b & 4 != 0, b & 2 != 0, b & 1 != 0]
  }

  function Bits(m: seq<bv8>): (r: seq<bool>)
    ensures |r| == 8 * |m|
  {
    if m == [] then [] else ByteBits(m[0]) + Bits(m[1..])
  }

  // ---- The table form ----

  /** One byte of the table form. */
  function TableStep(c: bv16, b: bv8): bv16 {
    (c << 8) ^ Table((c >> 8) as bv8 ^ b)
  }

  lemma FeedFirst(c: bv16, data: seq<bv8>)
    requires data != []
    ensures Feed(c, Bits(data)) == Feed(TableStep(c, data[0]), Bits(data[1..]))
  {
    hide TableStep, ByteBits, FeedBit;
    FeedByte(c, data[0]);
    FeedConcat(c, ByteBits(data[0]), Bits(data[1..]));
  }

  lemma FeedNothing(c: bv16)
    ensures Feed(c, Bits([])) == c
  {
  }

  /** The method of the source: fold the table step over the message. */
  method Update(init: bv16, data: seq<bv8>) returns (crc: bv16)
    ensures crc == Feed(init, Bits(data))
  {
    hide Table, Feed, Bits;
    crc := init;
    assert data[0..] == data;
    var i := 0;
    while i < |data|
      invariant 0 <= i <= |data|
      invariant Feed(crc, Bits(data[i..])) == Feed(init, Bits(data))
    {
      FeedFirst(crc, data[i..]);
      assert data[i..][1..] == data[i + 1..];
      var dat := (crc >> 8) as bv8;
      crc := crc << 8;
      crc := crc ^ Table(dat ^ data[i]);
      i := i + 1;
    }
    assert data[i..] == [];
    FeedNothing(crc);
  }

  method Compute(data: seq<bv8>) returns (crc: bv16)
    ensures crc == Feed(0, Bits(data))
  {
    crc := Update(0, data);
  }

  lemma FeedAt(c: bv16, m: seq<bv8>, k: nat, d: bv16)
    requires k < |m| && TableStep(c, m[k]) == d
    ensures Feed(c, Bits(m[k..])) == Feed(d, Bits(m[k + 1..]))
  {
    hide TableStep, Bits, Feed;
    FeedFirst(c, m[k..]);
    assert m[k..][1..] == m[k + 1..];
  }

  lemma CheckSteps1()
    ensures TableStep(0, 49) == 0x2672 && TableStep(0x2672, 50) == 0x20b5 && TableStep(0x20b5, 51) == 0x9752
  {
  }

  lemma CheckSteps2()
    ensures TableStep(0x9752, 52) == 0xd789 && TableStep(0xd789, 53) == 0x546c && TableStep(0x546c, 54) == 0x20e4
  {
  }

  lemma CheckSteps3()
    ensures TableStep(0x20e4, 55) == 0x86d6 && TableStep(0x86d6, 56) == 0x9015 && TableStep(0x9015, 57) == 0x31c3
  {
  }

  /** The code of the digits "123456789", the customary check value of this polynomial. */
  lemma CheckValue()
    ensures Feed(0, Bits([49, 50, 51, 52, 53, 54, 55, 56, 57])) == 0x31c3
  {
    hide TableStep, Bits, Feed;
    CheckSteps1();
    CheckSteps2();
    CheckSteps3();
    var m: seq<bv8> := [49, 50, 51, 52, 53, 54, 55, 56, 57];
    assert m[0..] == m;
    FeedAt(0, m, 0, 0x2672);
    FeedAt(0x2672, m, 1, 0x20b5);
    FeedAt(0x20b5, m, 2, 0x9752);
    FeedAt(0x9752, m, 3, 0xd789);
    FeedAt(0xd789, m, 4, 0x546c);
    FeedAt(0x546c, m, 5, 0x20e4);
    FeedAt(0x20e4, m, 6, 0x86d6);
    FeedAt(0x86d6, m, 7, 0x9015);
    FeedAt(0x9015, m, 8, 0x31c3);
    assert m[9..] == [];
    FeedNothing(0x31c3);
  }

  // ---- The table form is division ----

  /** The remainder of a byte in the high half of the register. */
  function Remainder(d: bv8): bv16 {
    Shift8(Wide(d))
  }

  lemma TableLow(d: bv8)
    requires d < 0x80
    ensures Table(d) == Remainder(d)
  {
  }

  lemma TableHigh(d: bv8)
    requires d >= 0x80
    ensures Table(d) == Remainder(d)
  {
  }

  // Names for the word operations, so that the steps below are chains of equalities.

  function Xor(x: bv16, y: bv16): bv16 { x ^ y }

  function Up(w: bv16): bv16 { w << 1 }

  predicate Top(w: bv16) { w & 0x8000 != 0 }

  function Wide(b: bv8): bv16 { (b as bv16) << 8 }

  function Shift8(c: bv16): bv16 {
    Shift(Shift(Shift(Shift(Shift(Shift(Shift(Shift(c))))))))
  }

  lemma ShiftOfSum(x: bv16, y: bv16)
    ensures Shift(x ^ y) == Shift(x) ^ Shift(y)
  {
  }

  lemma ShiftLinear(x: bv16, y: bv16)
    ensures Shift(Xor(x, y)) == Xor(Shift(x), Shift(y))
  {
    hide Shift;
    ShiftOfSum(x, y);
  }

  lemma Shift8Linear(x: bv16, y: bv16)
    ensures Shift8(Xor(x, y)) == Xor(Shift8(x), Shift8(y))
  {
    hide Shift, Xor;
    ShiftLinear(x, y);
    ShiftLinear(Shift(x), Shift(y));
    ShiftLinear(Shift(Shift(x)), Shift(Shift(y)));
    ShiftLinear(Shift(Shift(Shift(x))), Shift(Shift(Shift(y))));
    var u, v := Shift(Shift(Shift(Shift(x)))), Shift(Shift(Shift(Shift(y))));
    ShiftLinear(u, v);
    ShiftLinear(Shift(u), Shift(v));
    ShiftLinear(Shift(Shift(u)), Shift(Shift(v)));
    ShiftLinear(Shift(Shift(Shift(u))), Shift(Shift(Shift(v))));
  }

  lemma Halves(c: bv16)
    ensures c == Xor(c & 0xff, c & 0xff00) && Wide((c >> 8) as bv8) == c & 0xff00
  {
  }

  lemma LowShifts(c: bv16)
    ensures Shift8(c & 0xff) == c << 8
  {
  }

  /** Eight shifts of the register: its low half moved up, plus the remainder of its high half. */
  lemma EightShifts(c: bv16)
    ensures Shift8(c) == Xor(c << 8, Remainder((c >> 8) as bv8))
  {
    hide Shift8, Xor, Wide;
    Halves(c);
    LowShifts(c);
    Shift8Linear(c & 0xff, c & 0xff00);
  }

  lemma FeedEight(c: bv16, bits: seq<bool>)
    requires |bits| == 8
    ensures Feed(c, bits) ==
            FeedBit(FeedBit(FeedBit(FeedBit(FeedBit(FeedBit(FeedBit(FeedBit(
              c, bits[0]), bits[1]), bits[2]), bits[3]), bits[4]), bits[5]), bits[6]), bits[7])
  {
    hide FeedBit;
    var c2 := FeedBit(FeedBit(c, bits[0]), bits[1]);
    var c4 := FeedBit(FeedBit(c2, bits[2]), bits[3]);
    var c6 := FeedBit(FeedBit(c4, bits[4]), bits[5]);
    FeedTwo(c, bits);
    FeedTwo(c2, bits[2..]);
    assert bits[2..][2..] == bits[4..];
    FeedTwo(c4, bits[4..]);
    assert bits[4..][2..] == bits[6..];
    FeedTwo(c6, bits[6..]);
    assert bits[6..][2..] == [];
  }

  lemma FeedTwo(c: bv16, bits: seq<bool>)
    requires |bits| >= 2
    ensures Feed(c, bits) == Feed(FeedBit(FeedBit(c, bits[0]), bits[1]), bits[2..])
  {
    hide FeedBit;
    assert bits[1..][1..] == bits[2..] && bits[1..][0] == bits[1];
  }

  /** Shifting a register into which pending bits `w` were mixed feeds the top one and moves up the rest. */
  lemma OnePending(c: bv16, w: bv16)
    ensures Shift(Xor(c, w)) == Xor(FeedBit(c, Top(w)), Up(w))
  {
    hide Shift, FeedBit, Xor, Top, Up, TopBit, Rest;
    SplitTop(c, w);
    FeedTop(c, w);
    RestMovesUp(w);
    ShiftLinear(Xor(c, TopBit(w)), Rest(w));
  }

  function TopBit(w: bv16): bv16 { w & 0x8000 }

  function Rest(w: bv16): bv16 { w & 0x7fff }

  lemma SplitTop(c: bv16, w: bv16)
    ensures Xor(c, w) == Xor(Xor(c, TopBit(w)), Rest(w))
  {
    hide Xor, TopBit, Rest;
    WordParts(w);
    XorAssociates(c, TopBit(w), Rest(w));
  }

  lemma WordParts(w: bv16)
    ensures w == Xor(TopBit(w), Rest(w))
  {
  }

  lemma XorAssociates(x: bv16, y: bv16, z: bv16)
    ensures Xor(x, Xor(y, z)) == Xor(Xor(x, y), z)
  {
    assert x ^ (y ^ z) == (x ^ y) ^ z;
  }

  lemma FeedTop(c: bv16, w: bv16)
    ensures FeedBit(c, Top(w)) == Shift(Xor(c, TopBit(w)))
  {
    hide Shift;
    assert (if Top(w) then 0x8000 else 0) == TopBit(w);
  }

  lemma RestMovesUp(w: bv16)
    ensures Shift(Rest(w)) == Up(w)
  {
  }

  lemma PendingBits(b: bv8)
    ensures var w := Wide(b); var v := Up(Up(Up(Up(w))));
            && ByteBits(b) == [Top(w), Top(Up(w)), Top(Up(Up(w))), Top(Up(Up(Up(w)))),
                               Top(v), Top(Up(v)), Top(Up(Up(v))), Top(Up(Up(Up(v))))]
            && Up(Up(Up(Up(v)))) == 0
  {
  }

  lemma XorZero(c: bv16)
    ensures Xor(c, 0) == c
  {
  }

  /** Feeding a byte bit by bit, or mixing it in at the top and shifting eight times. */
  lemma ByteInOnce(c: bv16, b: bv8)
    ensures Feed(c, ByteBits(b)) == Shift8(Xor(c, Wide(b)))
  {
    hide Shift, FeedBit, Xor, Up, Top, Wide, Feed, ByteBits;
    PendingBits(b);
    FeedEight(c, ByteBits(b));
    var w0 := Wide(b);
    var w1 := Up(w0);
    var w2 := Up(w1);
    var w3 := Up(w2);
    var w4 := Up(w3);
    var w5 := Up(w4);
    var w6 := Up(w5);
    var w7 := Up(w6);
    OnePending(c, w0);
    var c1 := FeedBit(c, Top(w0));
    OnePending(c1, w1);
    var c2 := FeedBit(c1, Top(w1));
    OnePending(c2, w2);
    var c3 := FeedBit(c2, Top(w2));
    OnePending(c3, w3);
    var c4 := FeedBit(c3, Top(w3));
    OnePending(c4, w4);
    var c5 := FeedBit(c4, Top(w4));
    OnePending(c5, w5);
    var c6 := FeedBit(c5, Top(w5));
    OnePending(c6, w6);
    var c7 := FeedBit(c6, Top(w6));
    OnePending(c7, w7);
    XorZero(FeedBit(c7, Top(w7)));
  }

  lemma StepHalves(c: bv16, b: bv8)
    ensures var x := Xor(c, Wide(b)); (x >> 8) as bv8 == (c >> 8) as bv8 ^ b && x << 8 == c << 8
  {
  }

  lemma FeedByte(c: bv16, b: bv8)
    ensures TableStep(c, b) == Feed(c, ByteBits(b))
  {
    hide TableStep, Table, Shift8, Remainder, Feed, ByteBits, Wide, Xor;
    var x := Xor(c, Wide(b));
    ByteInOnce(c, b);
    EightShifts(x);
    StepHalves(c, b);
    TableIsRemainder((c >> 8) as bv8 ^ b);
    TableStepIs(c, b);
  }

  lemma TableStepIs(c: bv16, b: bv8)
    ensures TableStep(c, b) == Xor(c << 8, Table((c >> 8) as bv8 ^ b))
  {
    hide Table;
  }

  lemma TableIsRemainder(d: bv8)
    ensures Table(d) == Remainder(d)
  {
    hide Table, Remainder;
    if d < 0x80 { TableLow(d); } else { TableHigh(d); }
  }

  lemma {:induction false} FeedConcat(c: bv16, a: seq<bool>, b: seq<bool>)
    ensures Feed(c, a + b) == Feed(Feed(c, a), b)
    decreases |a|
  {
    hide FeedBit;
    if a == [] {
      assert a + b == b;
    } else {
      assert (a + b)[1..] == a[1..] + b;
      FeedConcat(FeedBit(c, a[0]), a[1..], b);
    }
  }

  lemma {:induction false} BitsConcat(a: seq<bv8>, b: seq<bv8>)
    ensures Bits(a + b) == Bits(a) + Bits(b)
  {
    if a == [] {
      assert a + b == b;
    } else {
      assert (a + b)[1..] == a[1..] + b;
      BitsConcat(a[1..], b);
    }
  }

  /** The code of a message in two parts is the code of the second part started from that of the first. */
  lemma Composes(c: bv16, a: seq<bv8>, b: seq<bv8>)
    ensures Feed(c, Bits(a + b)) == Feed(Feed(c, Bits(a)), Bits(b))
  {
    BitsConcat(a, b);
    FeedConcat(c, Bits(a), Bits(b));
  }

  // ---- Error detection ----

  lemma FeedBitInjective(c: bv16, d: bv16, bit: bool)
    requires c != d
    ensures FeedBit(c, bit) != FeedBit(d, bit)
  {
  }

  /** Different registers stay different under the same further input. */
  lemma {:induction false} FeedInjective(c: bv16, d: bv16, bits: seq<bool>)
    requires c != d
    ensures Feed(c, bits) != Feed(d, bits)
    decreases |bits|
  {
    hide FeedBit;
    if bits != [] {
      FeedBitInjective(c, d, bits[0]);
      FeedInjective(FeedBit(c, bits[0]), FeedBit(d, bits[0]), bits[1..]);
    }
  }

  /** The lowest n + 1 bits. */
  function LowBits(n: nat): bv16 {
    if n == 0 then 1 else (LowBits(n - 1) << 1) | 1
  }

  lemma LowBitsFit()
    ensures forall n :: 0 <= n < 15 ==> LowBits(n) & 0x8000 == 0
  {
    assert LowBits(0) == 1;
    assert LowBits(1) == 3;
    assert LowBits(2) == 7;
    assert LowBits(3) == 0xf;
    assert LowBits(4) == 0x1f;
    assert LowBits(5) == 0x3f;
    assert LowBits(6) == 0x7f;
    assert LowBits(7) == 0xff;
    assert LowBits(8) == 0x1ff;
    assert LowBits(9) == 0x3ff;
    assert LowBits(10) == 0x7ff;
    assert LowBits(11) == 0xfff;
    assert LowBits(12) == 0x1fff;
    assert LowBits(13) == 0x3fff;
    assert LowBits(14) == 0x7fff;
  }

  predicate LowDiffer(c: bv16, d: bv16, n: nat) {
    (c ^ d) & LowBits(n) != 0
  }

  lemma FirstDifference(c: bv16, x: bool, y: bool)
    requires x != y
    ensures LowDiffer(FeedBit(c, x), FeedBit(c, y), 0)
  {
    BottomDiffers(c, x, y);
  }

  lemma BottomDiffers(c: bv16, x: bool, y: bool)
    requires x != y
    ensures (FeedBit(c, x) ^ FeedBit(c, y)) & 1 != 0
  {
  }

  /** A difference in the low bits moves up by at most one place, or a new one appears at the bottom. */
  lemma DifferenceMoves(c: bv16, d: bv16, x: bool, y: bool, mask: bv16)
    requires (c ^ d) & mask != 0 && mask & 0x8000 == 0
    ensures (FeedBit(c, x) ^ FeedBit(d, y)) & ((mask << 1) | 1) != 0
  {
  }

  lemma LowDifferMoves(c: bv16, d: bv16, x: bool, y: bool, n: nat)
    requires n < 15 && LowDiffer(c, d, n)
    ensures LowDiffer(FeedBit(c, x), FeedBit(d, y), n + 1)
  {
    hide FeedBit;
    LowBitsFit();
    DifferenceMoves(c, d, x, y, LowBits(n));
  }

  lemma SameDoesNotDiffer(c: bv16, n: nat)
    ensures !LowDiffer(c, c, n)
  {
  }

  /** Registers that differ in the low n + 1 bits cannot be made equal by 15 - n further bits. */
  lemma {:induction false} BurstPersists(c: bv16, d: bv16, a: seq<bool>, b: seq<bool>, n: nat)
    requires |a| == |b| && n + |a| <= 15 && LowDiffer(c, d, n)
    ensures Feed(c, a) != Feed(d, b)
    decreases |a|
  {
    hide FeedBit, LowDiffer;
    if a == [] {
      SameDoesNotDiffer(c, n);
    } else {
      LowDifferMoves(c, d, a[0], b[0], n);
      BurstPersists(FeedBit(c, a[0]), FeedBit(d, b[0]), a[1..], b[1..], n + 1);
    }
  }

  /** Two different windows of at most sixteen bits lead to different registers. */
  lemma {:induction false} WindowDetected(c: bv16, a: seq<bool>, b: seq<bool>)
    requires |a| == |b| <= 16 && a != b
    ensures Feed(c, a) != Feed(c, b)
    decreases |a|
  {
    hide FeedBit, LowDiffer;
    if a[0] != b[0] {
      FirstDifference(c, a[0], b[0]);
      BurstPersists(FeedBit(c, a[0]), FeedBit(c, b[0]), a[1..], b[1..], 0);
    } else {
      assert a == [a[0]] + a[1..] && b == [b[0]] + b[1..];
      WindowDetected(FeedBit(c, a[0]), a[1..], b[1..]);
    }
  }

  /** Every error burst of at most sixteen bits, anywhere in a message of any length, changes the code. */
  lemma BurstDetected(c: bv16, a: seq<bool>, b: seq<bool>, k: nat, n: nat)
    requires |a| == |b| && k + n <= |a| && n <= 16
    requires a != b && forall i :: 0 <= i < |a| && !(k <= i < k + n) ==> a[i] == b[i]
    ensures Feed(c, a) != Feed(c, b)
  {
    hide Feed;
    var p, t := a[..k], a[k + n..];
    assert a == p + (a[k..k + n] + t) && b == p + (b[k..k + n] + t);
    FeedConcat(c, p, a[k..k + n] + t);
    FeedConcat(c, p, b[k..k + n] + t);
    var c1 := Feed(c, p);
    FeedConcat(c1, a[k..k + n], t);
    FeedConcat(c1, b[k..k + n], t);
    WindowDetected(c1, a[k..k + n], b[k..k + n]);
    FeedInjective(Feed(c1, a[k..k + n]), Feed(c1, b[k..k + n]), t);
  }

  lemma ByteBitsInjective(a: bv8, b: bv8)
    requires ByteBits(a) == ByteBits(b)
    ensures a == b
  {
    assert forall i :: 0 <= i < 8 ==> ByteBits(a)[i] == ByteBits(b)[i];
    assert ByteBits(a)[0] == ByteBits(b)[0] && ByteBits(a)[1] == ByteBits(b)[1];
    assert ByteBits(a)[2] == ByteBits(b)[2] && ByteBits(a)[3] == ByteBits(b)[3];
    assert ByteBits(a)[4] == ByteBits(b)[4] && ByteBits(a)[5] == ByteBits(b)[5];
    assert ByteBits(a)[6] == ByteBits(b)[6] && ByteBits(a)[7] == ByteBits(b)[7];
  }

  lemma {:induction false} BitsAt(m: seq<bv8>, i: nat)
    requires i < |m|
    ensures Bits(m)[8 * i..8 * i + 8] == ByteBits(m[i])
  {
    if i > 0 {
      BitsAt(m[1..], i - 1);
      assert Bits(m)[8 * i..8 * i + 8] == Bits(m[1..])[8 * (i - 1)..8 * (i - 1) + 8];
    }
  }

  /** Messages of equal length that differ only within two consecutive bytes never have the same code. */
  lemma TwoBytesDetected(c: bv16, a: seq<bv8>, b: seq<bv8>, k: nat)
    requires |a| == |b| && a != b
    requires forall i :: 0 <= i < |a| && i != k && i != k + 1 ==> a[i] == b[i]
    ensures Feed(c, Bits(a)) != Feed(c, Bits(b))
  {
    hide Feed, ByteBits, Bits;
    var x, y := Bits(a), Bits(b);
    var from := if k + 2 <= |a| then k else if |a| >= 2 then |a| - 2 else 0;
    var n := if |a| >= 2 then 2 else |a|;
    forall i | 0 <= i < |x| && !(8 * from <= i < 8 * from + 8 * n)
      ensures x[i] == y[i]
    {
      BitsAt(a, i / 8);
      BitsAt(b, i / 8);
      assert x[i] == x[8 * (i / 8)..8 * (i / 8) + 8][i % 8];
      assert y[i] == y[8 * (i / 8)..8 * (i / 8) + 8][i % 8];
    }
    var j :| 0 <= j < |a| && a[j] != b[j];
    BitsAt(a, j);
    BitsAt(b, j);
    if x == y { ByteBitsInjective(a[j], b[j]); }
    BurstDetected(c, x, y, 8 * from, 8 * n);
  }

  // ---- Errors with an odd number of wrong bits ----

  predicate Low(c: bv16) { c & 1 == 1 }

  function Half(c: bv16): bv16 { c >> 1 }

  /** Is the number of set bits among the lowest `n` odd? */
  predicate OddBits(c: bv16, n: nat) {
    n > 0 && Low(c) != OddBits(Half(c), n - 1)
  }

  lemma LowAndHalf(c: bv16, d: bv16)
    ensures Low(Xor(c, d)) <==> Low(c) != Low(d)
    ensures Half(Xor(c, d)) == Xor(Half(c), Half(d))
  {
  }

  lemma {:induction false} OddBitsXor(c: bv16, d: bv16, n: nat)
    ensures OddBits(Xor(c, d), n) <==> OddBits(c, n) != OddBits(d, n)
    decreases n
  {
    hide Low, Half, Xor;
    if n > 0 {
      LowAndHalf(c, d);
      OddBitsXor(Half(c), Half(d), n - 1);
    }
  }

  lemma {:induction false} NoOddBits(n: nat)
    ensures !OddBits(0, n)
  {
    hide Low, Half;
    ZeroHalf();
    if n > 0 { NoOddBits(n - 1); }
  }

  lemma ZeroHalf()
    ensures Half(0) == 0 && !Low(0) && Half(1) == 0 && Low(1)
  {
  }

  /** A register with one set bit. */
  predicate SingleBit(p: bv16, n: nat) {
    n > 0 && (p == 1 || (!Low(p) && SingleBit(Half(p), n - 1)))
  }

  lemma {:induction false} SingleIsOdd(p: bv16, n: nat)
    requires SingleBit(p, n)
    ensures OddBits(p, n)
    decreases n
  {
    hide Low, Half;
    ZeroHalf();
    if p == 1 { NoOddBits(n - 1); } else { SingleIsOdd(Half(p), n - 1); }
  }

  lemma {:induction false} SingleWithMore(p: bv16, n: nat, m: nat)
    requires SingleBit(p, n) && n <= m
    ensures SingleBit(p, m)
    decreases n
  {
    hide Low, Half;
    if p != 1 { SingleWithMore(Half(p), n - 1, m - 1); }
  }

  lemma NextSingle(p: bv16, q: bv16, n: nat)
    requires SingleBit(p, n) && !Low(q) && Half(q) == p
    ensures SingleBit(q, n + 1)
  {
    hide Low, Half;
  }

  lemma LowSingles()
    ensures SingleBit(0x1, 1) && SingleBit(0x2, 2) && SingleBit(0x4, 3) && SingleBit(0x8, 4) && SingleBit(0x10, 5)
    ensures SingleBit(0x20, 6) && SingleBit(0x40, 7) && SingleBit(0x80, 8)
  {
    NextSingle(0x1, 0x2, 1);
    NextSingle(0x2, 0x4, 2);
    NextSingle(0x4, 0x8, 3);
    NextSingle(0x8, 0x10, 4);
    NextSingle(0x10, 0x20, 5);
    NextSingle(0x20, 0x40, 6);
    NextSingle(0x40, 0x80, 7);
  }

  lemma HighSingles()
    ensures SingleBit(0x100, 9) && SingleBit(0x200, 10) && SingleBit(0x400, 11) && SingleBit(0x800, 12)
    ensures SingleBit(0x1000, 13) && SingleBit(0x2000, 14) && SingleBit(0x4000, 15) && SingleBit(0x8000, 16)
  {
    LowSingles();
    NextSingle(0x80, 0x100, 8);
    NextSingle(0x100, 0x200, 9);
    NextSingle(0x200, 0x400, 10);
    NextSingle(0x400, 0x800, 11);
    NextSingle(0x800, 0x1000, 12);
    NextSingle(0x1000, 0x2000, 13);
    NextSingle(0x2000, 0x4000, 14);
    NextSingle(0x4000, 0x8000, 15);
  }

  /** Whether the register holds an odd number of ones. */
  predicate OddOnes(c: bv16) { OddBits(c, 16) }

  /** A shift of the division register keeps that: the polynomial has an even number of terms. */
  predicate KeepsParity(c: bv16) { OddOnes(Shift(c)) == OddOnes(c) }

  lemma KeepsSum(c: bv16, d: bv16)
    requires KeepsParity(c) && KeepsParity(d)
    ensures KeepsParity(Xor(c, d))
  {
    hide Shift, Xor, OddBits;
    ShiftLinear(c, d);
    OddBitsXor(Shift(c), Shift(d), 16);
    OddBitsXor(c, d, 16);
  }

  lemma SingleKeeps(p: bv16, q: bv16, n: nat)
    requires n < 16 && SingleBit(p, n) && SingleBit(q, n + 1) && Shift(p) == q
    ensures KeepsParity(p)
  {
    hide Shift, OddBits, SingleBit;
    SingleWithMore(p, n, 16);
    SingleWithMore(q, n + 1, 16);
    SingleIsOdd(p, 16);
    SingleIsOdd(q, 16);
  }

  lemma TopKeeps()
    ensures KeepsParity(0x8000)
  {
    hide OddBits, SingleBit, Xor;
    HighSingles();
    LowSingles();
    SingleIsOdd(0x8000, 16);
    SingleWithMore(1, 1, 16);
    SingleWithMore(0x20, 6, 16);
    SingleWithMore(0x1000, 13, 16);
    SingleIsOdd(1, 16);
    SingleIsOdd(0x20, 16);
    SingleIsOdd(0x1000, 16);
    OddBitsXor(1, 0x20, 16);
    OddBitsXor(Xor(1, 0x20), 0x1000, 16);
    Polynomial();
  }

  lemma Polynomial()
    ensures Shift(0x8000) == 0x1021 == Xor(Xor(1, 0x20), 0x1000)
  {
  }

  lemma ZeroKeeps()
    ensures KeepsParity(0)
  {
    hide OddBits;
    assert Shift(0) == 0;
  }

  /** The bits of the register under a mask. */
  function Part(c: bv16, m: bv16): bv16 { c & m }

  /** One more bit of the register. */
  lemma OneMoreBit(c: bv16, m: bv16, bit: bv16, more: bv16)
    requires m & bit == 0 && more == m | bit && bit & (bit - 1) == 0
    requires KeepsParity(Part(c, m)) && KeepsParity(bit)
    ensures KeepsParity(Part(c, more))
  {
    hide KeepsParity, Part, Xor;
    SplitMask(c, m, bit, more);
    AllOrNothing(c, bit);
    if Part(c, bit) == bit { KeepsSum(Part(c, m), bit); } else { XorZero(Part(c, m)); }
  }

  lemma AllOrNothing(c: bv16, bit: bv16)
    requires bit & (bit - 1) == 0
    ensures Part(c, bit) == 0 || Part(c, bit) == bit
  {
  }

  lemma SplitMask(c: bv16, m: bv16, bit: bv16, more: bv16)
    requires m & bit == 0 && more == m | bit
    ensures Part(c, more) == Xor(Part(c, m), Part(c, bit))
  {
  }

  lemma SinglesKeep()
    ensures KeepsParity(0x1) && KeepsParity(0x2) && KeepsParity(0x4) && KeepsParity(0x8) && KeepsParity(0x10)
    ensures KeepsParity(0x20) && KeepsParity(0x40) && KeepsParity(0x80)
    ensures KeepsParity(0x100) && KeepsParity(0x200) && KeepsParity(0x400) && KeepsParity(0x800)
    ensures KeepsParity(0x1000) && KeepsParity(0x2000) && KeepsParity(0x4000) && KeepsParity(0x8000)
  {
    hide KeepsParity, SingleBit;
    LowSingles();
    HighSingles();
    ShiftOfSingles();
    SingleKeeps(0x1, 0x2, 1);
    SingleKeeps(0x2, 0x4, 2);
    SingleKeeps(0x4, 0x8, 3);
    SingleKeeps(0x8, 0x10, 4);
    SingleKeeps(0x10, 0x20, 5);
    SingleKeeps(0x20, 0x40, 6);
    SingleKeeps(0x40, 0x80, 7);
    SingleKeeps(0x80, 0x100, 8);
    SingleKeeps(0x100, 0x200, 9);
    SingleKeeps(0x200, 0x400, 10);
    SingleKeeps(0x400, 0x800, 11);
    SingleKeeps(0x800, 0x1000, 12);
    SingleKeeps(0x1000, 0x2000, 13);
    SingleKeeps(0x2000, 0x4000, 14);
    SingleKeeps(0x4000, 0x8000, 15);
    TopKeeps();
  }

  lemma ShiftOfSingles()
    ensures Shift(0x1) == 0x2 && Shift(0x2) == 0x4 && Shift(0x4) == 0x8 && Shift(0x8) == 0x10 && Shift(0x10) == 0x20
    ensures Shift(0x20) == 0x40 && Shift(0x40) == 0x80 && Shift(0x80) == 0x100 && Shift(0x100) == 0x200
    ensures Shift(0x200) == 0x400
    ensures Shift(0x400) == 0x800 && Shift(0x800) == 0x1000 && Shift(0x1000) == 0x2000 && Shift(0x2000) == 0x4000
    ensures Shift(0x4000) == 0x8000
  {
  }

  lemma KeepsNibble0(c: bv16)
    requires KeepsParity(Part(c, 0x0))
    ensures KeepsParity(Part(c, 0xf))
  {
    hide KeepsParity, Part;
    SinglesKeep();
    OneMoreBit(c, 0x0, 0x1, 0x1);
    OneMoreBit(c, 0x1, 0x2, 0x3);
    OneMoreBit(c, 0x3, 0x4, 0x7);
    OneMoreBit(c, 0x7, 0x8, 0xf);
  }

  lemma KeepsNibble1(c: bv16)
    requires KeepsParity(Part(c, 0xf))
    ensures KeepsParity(Part(c, 0xff))
  {
    hide KeepsParity, Part;
    SinglesKeep();
    OneMoreBit(c, 0xf, 0x10, 0x1f);
    OneMoreBit(c, 0x1f, 0x20, 0x3f);
    OneMoreBit(c, 0x3f, 0x40, 0x7f);
    OneMoreBit(c, 0x7f, 0x80, 0xff);
  }

  lemma KeepsNibble2(c: bv16)
    requires KeepsParity(Part(c, 0xff))
    ensures KeepsParity(Part(c, 0xfff))
  {
    hide KeepsParity, Part;
    SinglesKeep();
    OneMoreBit(c, 0xff, 0x100, 0x1ff);
    OneMoreBit(c, 0x1ff, 0x200, 0x3ff);
    OneMoreBit(c, 0x3ff, 0x400, 0x7ff);
    OneMoreBit(c, 0x7ff, 0x800, 0xfff);
  }

  lemma KeepsNibble3(c: bv16)
    requires KeepsParity(Part(c, 0xfff))
    ensures KeepsParity(Part(c, 0xffff))
  {
    hide KeepsParity, Part;
    SinglesKeep();
    OneMoreBit(c, 0xfff, 0x1000, 0x1fff);
    OneMoreBit(c, 0x1fff, 0x2000, 0x3fff);
    OneMoreBit(c, 0x3fff, 0x4000, 0x7fff);
    OneMoreBit(c, 0x7fff, 0x8000, 0xffff);
  }

  lemma WholeAndNothing(c: bv16)
    ensures Part(c, 0) == 0 && Part(c, 0xffff) == c
  {
  }

  lemma ShiftKeepsParity(c: bv16)
    ensures KeepsParity(c)
  {
    hide KeepsParity, Part;
    WholeAndNothing(c);
    ZeroKeeps();
    KeepsNibble0(c);
    KeepsNibble1(c);
    KeepsNibble2(c);
    KeepsNibble3(c);
  }

  /** Feeding a bit changes the parity of the register by that bit. */
  lemma FeedBitParity(c: bv16, bit: bool)
    ensures OddOnes(FeedBit(c, bit)) <==> OddOnes(c) != bit
  {
    hide OddOnes, Shift, OddBits, FeedBit, Xor;
    FeedIsShift(c, bit);
    ShiftKeepsParity(Xor(c, if bit then 0x8000 else 0));
    ParityOfTop(c, bit);
  }

  lemma FeedIsShift(c: bv16, bit: bool)
    ensures FeedBit(c, bit) == Shift(Xor(c, if bit then 0x8000 else 0))
  {
    hide Shift;
  }

  lemma ParityOfTop(c: bv16, bit: bool)
    ensures OddOnes(Xor(c, if bit then 0x8000 else 0)) <==> OddOnes(c) != bit
  {
    hide OddBits, SingleBit, Xor;
    if bit {
      HighSingles();
      SingleIsOdd(0x8000, 16);
      OddBitsXor(c, 0x8000, 16);
    } else {
      XorZero(c);
    }
  }

  /** In how many places two messages differ. */
  function Differences(a: seq<bool>, b: seq<bool>): nat
    requires |a| == |b|
  {
    if a == [] then 0 else (if a[0] == b[0] then 0 else 1) + Differences(a[1..], b[1..])
  }

  lemma {:induction false} ParityFollows(c: bv16, d: bv16, a: seq<bool>, b: seq<bool>)
    requires |a| == |b|
    ensures (OddOnes(Feed(c, a)) != OddOnes(Feed(d, b))) <==> (OddOnes(c) != OddOnes(d)) != (Differences(a, b) % 2 == 1)
    decreases |a|
  {
    hide OddOnes, FeedBit;
    if a != [] {
      FeedBitParity(c, a[0]);
      FeedBitParity(d, b[0]);
      ParityFollows(FeedBit(c, a[0]), FeedBit(d, b[0]), a[1..], b[1..]);
    }
  }

  /** Every error with an odd number of wrong bits, in a message of any length, changes the code. */
  lemma OddErrorDetected(c: bv16, a: seq<bool>, b: seq<bool>)
    requires |a| == |b| && Differences(a, b) % 2 == 1
    ensures Feed(c, a) != Feed(c, b)
  {
    hide OddOnes, Feed;
    ParityFollows(c, c, a, b);
  }
}
