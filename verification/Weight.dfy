/** The parallel bit count hweight64, proved to be the number of set bits. */
module Weight {
  import opened Word

  /** How many of the first `n` bits are set. */
  function Count(w: word, n: nat): nat
    requires n <= 64
  {
    if n == 0 then 0 else Count(w, n - 1) + if Bit(w, n - 1) then 1 else 0
  }

  // The stages of hweight64: sums of two, four and eight neighbouring bits, then of the eight bytes.

  function Pairs(x: word): word { x - ((x >> 1) & 0x5555_5555_5555_5555) }

  function Nibbles(x: word): word { (x & 0x3333_3333_3333_3333) + ((x >> 2) & 0x3333_3333_3333_3333) }

  function Bytes(x: word): word { (x + (x >> 4)) & 0x0f0f_0f0f_0f0f_0f0f }

  function ByteCounts(x: word): word { Bytes(Nibbles(Pairs(x))) }

  function AddBytes(x: word): word { x + (x >> 8) }

  function AddShorts(x: word): word { x + (x >> 16) }

  function Folded(x: word): word { AddShorts(AddBytes(x)) }

  function Total(x: word): word { (x + (x >> 32)) & 0x7f }

  function Swar(x: word): word { Total(Folded(ByteCounts(x))) }

  /** hweight64. */
  function Hweight(x: word): nat {
    Value(Swar(x))
  }

  /** A small word as a number. */
  function Value(x: word): nat {
    Number(Narrow(x))
  }

  predicate AtMost8(x: word) { x <= 8 }

  predicate AtMost32(x: word) { x <= 32 }

  function Add(x: word, y: word): word { x + y }

  lemma ValueAdds(x: word, y: word)
    requires AtMost32(x) && AtMost32(y)
    ensures Value(Add(x, y)) == Value(x) + Value(y)
  {
    hide Add, Narrow, Number, Plus, AtMost32;
    SmallAdds(x, y);
    SumFits(Narrow(x), Narrow(y));
  }

  // Seven bits are enough for the numbers that occur.

  function Narrow(x: word): bv7 { (x & 0x7f) as bv7 }

  function Number(a: bv7): nat { a as nat }

  function Plus(a: bv7, b: bv7): bv7 { a + b }

  function Next(a: bv7): bv7 { a + 1 }

  function Previous(a: bv7): bv7 { a - 1 }

  lemma SmallAdds(x: word, y: word)
    requires AtMost32(x) && AtMost32(y)
    ensures Narrow(Add(x, y)) == Plus(Narrow(x), Narrow(y)) && Number(Narrow(x)) <= 32 && Number(Narrow(y)) <= 32
  {
    InSevenBits(x, y);
    NarrowIsSmall((x & 0x7f) as bv7);
    NarrowIsSmall((y & 0x7f) as bv7);
  }

  lemma InSevenBits(x: word, y: word)
    requires x <= 32 && y <= 32
    ensures ((x + y) & 0x7f) as bv7 == (x & 0x7f) as bv7 + (y & 0x7f) as bv7
    ensures (x & 0x7f) as bv7 <= 32 && (y & 0x7f) as bv7 <= 32
  {
  }

  lemma NarrowIsSmall(a: bv7)
    requires a <= 32
    ensures a as nat <= 32
  {
  }

  /** Small numbers add up the same in seven bits, by counting the second one down. */
  lemma {:induction false} SumFits(a: bv7, b: bv7)
    requires Number(a) + Number(b) < 128
    ensures Number(Plus(a, b)) == Number(a) + Number(b)
    decreases Number(b)
  {
    hide Number, Plus, Next, Previous;
    if Number(b) == 0 {
      PlusNothing(a, b);
    } else {
      OneLess(b);
      SumFits(a, Previous(b));
      OneMore(Plus(a, Previous(b)));
      Regrouped(a, b);
    }
  }

  lemma PlusNothing(a: bv7, b: bv7)
    requires Number(b) == 0
    ensures Plus(a, b) == a
  {
  }

  lemma OneLess(b: bv7)
    requires Number(b) > 0
    ensures Number(Previous(b)) == Number(b) - 1
  {
  }

  lemma OneMore(a: bv7)
    requires Number(a) < 127
    ensures Number(Next(a)) == Number(a) + 1
  {
  }

  lemma Regrouped(a: bv7, b: bv7)
    ensures Next(Plus(a, Previous(b))) == Plus(a, b)
  {
  }

  function Down(x: word): word { x >> 8 }

  function Low(x: word): word { x & 0xff }

  // Each stage works on every byte by itself.

  lemma PairsLocal(x: word)
    ensures Down(Pairs(x)) == Pairs(Down(x)) && Low(Pairs(x)) == Pairs(Low(x))
  {
  }

  lemma NibblesLocal(x: word)
    ensures Down(Nibbles(x)) == Nibbles(Down(x)) && Low(Nibbles(x)) == Nibbles(Low(x))
  {
  }

  predicate SmallNibbles(x: word) { x & 0x8888_8888_8888_8888 == 0 }

  predicate SmallBytes(x: word) { x & 0xf0f0_f0f0_f0f0_f0f0 == 0 }

  lemma NibblesAreSmall(x: word)
    ensures SmallNibbles(Nibbles(Pairs(x)))
  {
  }

  lemma BytesLocal(x: word)
    requires SmallNibbles(x)
    ensures Down(Bytes(x)) == Bytes(Down(x)) && Low(Bytes(x)) == Bytes(Low(x))
  {
  }

  lemma BytesAreSmall(x: word)
    ensures SmallBytes(Bytes(x))
  {
  }

  lemma ByteCountsLocal(x: word)
    ensures Down(ByteCounts(x)) == ByteCounts(Down(x)) && Low(ByteCounts(x)) == ByteCounts(Low(x))
    ensures SmallBytes(ByteCounts(x))
  {
    hide Pairs, Nibbles, Bytes, Down, Low, SmallNibbles, SmallBytes;
    PairsLocal(x);
    NibblesLocal(Pairs(x));
    NibblesAreSmall(x);
    BytesLocal(Nibbles(Pairs(x)));
    BytesAreSmall(Nibbles(Pairs(x)));
  }

  // The lowest byte, two bits at a time.

  function LowestBit(x: word): word { x & 1 }

  function Two(x: word): word { Add(LowestBit(x), LowestBit(Half(x))) }

  function Quarter(x: word): word { x >> 2 }

  /** The set bits of the lowest byte, as a word. */
  function LowBitSum(x: word): word {
    Add(Add(Two(x), Two(Quarter(x))), Add(Two(Quarter(Quarter(x))), Two(Quarter(Quarter(Quarter(x))))))
  }

  function PackPairs(a: word, b: word, c: word, d: word): word { a | (b << 2) | (c << 4) | (d << 6) }

  function PackNibbles(a: word, b: word): word { a | (b << 4) }

  predicate AtMost2(x: word) { x <= 2 }

  predicate AtMost4(x: word) { x <= 4 }

  lemma TwoBits(x: word)
    ensures AtMost2(Two(x)) && AtMost32(Two(x))
  {
  }

  lemma PairsOfByte(x: word)
    ensures Pairs(Low(x)) ==
            PackPairs(Two(x), Two(Quarter(x)), Two(Quarter(Quarter(x))), Two(Quarter(Quarter(Quarter(x)))))
  {
  }

  lemma NibblesOfPairs(a: word, b: word, c: word, d: word)
    requires AtMost2(a) && AtMost2(b) && AtMost2(c) && AtMost2(d)
    ensures Nibbles(PackPairs(a, b, c, d)) == PackNibbles(Add(a, b), Add(c, d))
  {
  }

  lemma BytesOfNibbles(a: word, b: word)
    requires AtMost4(a) && AtMost4(b)
    ensures Bytes(PackNibbles(a, b)) == Add(a, b) && AtMost8(Add(a, b))
  {
  }

  lemma PairBounds(a: word, b: word)
    requires AtMost2(a) && AtMost2(b)
    ensures AtMost4(Add(a, b)) && AtMost32(Add(a, b))
  {
  }

  lemma ByteCountOfByte(x: word)
    ensures ByteCounts(Low(x)) == LowBitSum(x) && AtMost8(LowBitSum(x))
  {
    hide Low, Pairs, Nibbles, Bytes, Two, Quarter, Add, PackPairs, PackNibbles, AtMost2, AtMost4, AtMost8;
    var a, b, c, d := Two(x), Two(Quarter(x)), Two(Quarter(Quarter(x))), Two(Quarter(Quarter(Quarter(x))));
    TwoBits(x);
    TwoBits(Quarter(x));
    TwoBits(Quarter(Quarter(x)));
    TwoBits(Quarter(Quarter(Quarter(x))));
    PairsOfByte(x);
    NibblesOfPairs(a, b, c, d);
    PairBounds(a, b);
    PairBounds(c, d);
    BytesOfNibbles(Add(a, b), Add(c, d));
  }

  // The final sums.

  function Sum(a: word, b: word, c: word, d: word): word { Add(Add(a, b), Add(c, d)) }

  // The eight bytes of a word.

  function At0(x: word): word { x & 0xff }
  function At8(x: word): word { (x >> 8) & 0xff }
  function At16(x: word): word { (x >> 16) & 0xff }
  function At24(x: word): word { (x >> 24) & 0xff }
  function High(x: word): word { (x >> 32) & 0xff }
  function At40(x: word): word { (x >> 40) & 0xff }
  function At48(x: word): word { (x >> 48) & 0xff }
  function At56(x: word): word { (x >> 56) & 0xff }

  predicate TinyBytes(x: word) { x & 0xe0e0_e0e0_e0e0_e0e0 == 0 }

  lemma LowPairs(x: word)
    requires SmallBytes(x)
    ensures At0(AddBytes(x)) == Add(At0(x), At8(x)) && At16(AddBytes(x)) == Add(At16(x), At24(x))
  {
  }

  lemma HighPairs(x: word)
    requires SmallBytes(x)
    ensures High(AddBytes(x)) == Add(High(x), At40(x)) && At48(AddBytes(x)) == Add(At48(x), At56(x))
  {
  }

  lemma PairsAreTiny(x: word)
    requires SmallBytes(x)
    ensures TinyBytes(AddBytes(x))
  {
  }

  lemma LowQuads(y: word)
    requires TinyBytes(y)
    ensures Low(AddShorts(y)) == Add(At0(y), At16(y))
  {
  }

  lemma HighQuads(y: word)
    requires TinyBytes(y)
    ensures High(AddShorts(y)) == Add(High(y), At48(y))
  {
  }

  lemma Halves(x: word)
    requires SmallBytes(x)
    ensures Low(Folded(x)) == Sum(At0(x), At8(x), At16(x), At24(x))
    ensures High(Folded(x)) == Sum(High(x), At40(x), At48(x), At56(x))
  {
    hide SmallBytes, TinyBytes, AddBytes, AddShorts, At0, At8, At16, At24, High, At40, At48, At56, Low, Add;
    LowPairs(x);
    HighPairs(x);
    PairsAreTiny(x);
    LowQuads(AddBytes(x));
    HighQuads(AddBytes(x));
  }

  lemma TwoHalves(y: word)
    requires AtMost32(Low(y)) && AtMost32(High(y))
    ensures Total(y) == Add(Low(y), High(y))
  {
  }

  /** Byte `k`. */
  function ByteAt(x: word, k: nat): word
    requires k < 8
  {
    Low(Shr(x, 8 * k))
  }

  lemma BytesByShift(x: word)
    ensures ByteAt(x, 0) == At0(x) && ByteAt(x, 1) == At8(x) && ByteAt(x, 2) == At16(x) && ByteAt(x, 3) == At24(x)
    ensures ByteAt(x, 4) == High(x) && ByteAt(x, 5) == At40(x) && ByteAt(x, 6) == At48(x) && ByteAt(x, 7) == At56(x)
  {
    hide Low, Down, At0, At8, At16, At24, High, At40, At48, At56, Shr;
    NoShift(x);
    ShrDown(x, 0);
    ShrDown(x, 8);
    ShrDown(x, 16);
    ShrDown(x, 24);
    ShrDown(x, 32);
    ShrDown(x, 40);
    ShrDown(x, 48);
    LowBytes(x);
    HighBytes(x);
  }

  lemma NoShift(x: word)
    ensures Shr(x, 0) == x
  {
  }

  lemma LowBytes(x: word)
    ensures var d := Down(x);
            Low(x) == At0(x) && Low(d) == At8(x) && Low(Down(d)) == At16(x) && Low(Down(Down(d))) == At24(x)
  {
  }

  lemma HighBytes(x: word)
    ensures var d := Down(Down(Down(Down(x))));
            Low(d) == High(x) && Low(Down(d)) == At40(x)
            && Low(Down(Down(d))) == At48(x) && Low(Down(Down(Down(d)))) == At56(x)
  {
  }

  /** Four neighbouring bytes, added up. */
  function FourBytes(x: word, k: nat): word
    requires k + 3 < 8
  {
    Sum(ByteAt(x, k), ByteAt(x, k + 1), ByteAt(x, k + 2), ByteAt(x, k + 3))
  }

  predicate BytesAtMost8(x: word) {
    forall k :: 0 <= k < 8 ==> AtMost8(ByteAt(x, k))
  }

  lemma SumOfBytes(x: word)
    requires SmallBytes(x) && BytesAtMost8(x)
    ensures Total(Folded(x)) == Add(FourBytes(x, 0), FourBytes(x, 4)) && AtMost32(FourBytes(x, 0))
    ensures AtMost32(FourBytes(x, 4))
  {
    hide SmallBytes, Folded, ByteAt, Sum, Total, Low, Add, AtMost8, AtMost32, At0, At8, At16, At24, High,
         At40, At48, At56;
    BytesByShift(x);
    Halves(x);
    SumBounds(ByteAt(x, 0), ByteAt(x, 1), ByteAt(x, 2), ByteAt(x, 3));
    SumBounds(ByteAt(x, 4), ByteAt(x, 5), ByteAt(x, 6), ByteAt(x, 7));
    TwoHalves(Folded(x));
  }

  lemma SumBounds(a: word, b: word, c: word, d: word)
    requires AtMost8(a) && AtMost8(b) && AtMost8(c) && AtMost8(d)
    ensures AtMost32(Sum(a, b, c, d)) && AtMost32(Add(a, b)) && AtMost32(Add(c, d))
    ensures AtMost32(a) && AtMost32(b) && AtMost32(c) && AtMost32(d)
  {
  }

  // Back to bits.

  lemma {:induction false} ByteCountsShifted(x: word, k: nat)
    ensures Shr(ByteCounts(x), 8 * k) == ByteCounts(Shr(x, 8 * k))
  {
    hide Half, Down, Low, ByteCounts, SmallBytes;
    if k > 0 {
      ByteCountsShifted(x, k - 1);
      ShrDown(x, 8 * (k - 1));
      ShrDown(ByteCounts(x), 8 * (k - 1));
      ByteCountsLocal(Shr(x, 8 * (k - 1)));
    }
  }

  lemma ShrDown(x: word, n: nat)
    ensures Shr(x, n + 8) == Down(Shr(x, n))
  {
    hide Shr;
    ShrEight(x, n);
  }

  lemma ByteCountAt(x: word, k: nat)
    requires k < 8
    ensures ByteAt(ByteCounts(x), k) == LowBitSum(Shr(x, 8 * k)) && AtMost8(ByteAt(ByteCounts(x), k))
  {
    hide Shr, Low, ByteCounts, LowBitSum, SmallBytes, AtMost8;
    ByteCountsShifted(x, k);
    ByteCountsLocal(Shr(x, 8 * k));
    ByteCountOfByte(Shr(x, 8 * k));
  }

  lemma {:induction false} CountSplit(x: word, n: nat, m: nat)
    requires n < 64 && n + m <= 64
    ensures Count(x, n + m) == Count(x, n) + Count(Shr(x, n), m)
  {
    hide Bit, Shr;
    if m > 0 {
      CountSplit(x, n, m - 1);
      BitShr(x, n, m - 1);
    }
  }

  lemma ValueOfBit(x: word)
    ensures Value(LowestBit(x)) == (if Odd(x) then 1 else 0) && AtMost32(LowestBit(x))
  {
    hide Narrow, Number;
    BitIsOneOrNone(x);
    SmallestNumbers();
  }

  lemma BitIsOneOrNone(x: word)
    ensures LowestBit(x) == (if Odd(x) then 1 else 0) && AtMost32(LowestBit(x))
  {
  }

  lemma SmallestNumbers()
    ensures Value(0) == 0 && Value(1) == 1
  {
  }

  /** Two neighbouring bits, as a number. */
  lemma TwoCounts(x: word, n: nat)
    requires n < 63
    ensures Value(Two(Shr(x, n))) == Count(x, n + 2) - Count(x, n)
  {
    hide Value, Add, LowestBit, Half, Odd, AtMost32;
    ValueOfBit(Shr(x, n));
    ValueOfBit(Shr(x, n + 1));
    ValueAdds(LowestBit(Shr(x, n)), LowestBit(Shr(x, n + 1)));
    assert Shr(x, n + 1) == Half(Shr(x, n));
    assert Count(x, n + 2) == Count(x, n + 1) + if Bit(x, n + 1) then 1 else 0;
  }

  lemma CountNothing(x: word)
    ensures Count(x, 0) == 0
  {
  }

  lemma QuarterIs(x: word, n: nat)
    ensures Quarter(Shr(x, n)) == Shr(x, n + 2)
  {
    hide Shr;
    ShrTwo(x, n);
  }

  lemma LowBitSumCounts(x: word)
    ensures Value(LowBitSum(x)) == Count(x, 8)
  {
    hide Value, Add, Two, Quarter, Shr, Count;
    NoShift(x);
    CountNothing(x);
    QuarterIs(x, 0);
    QuarterIs(x, 2);
    QuarterIs(x, 4);
    FourPairs(Two(Shr(x, 0)), Two(Shr(x, 2)), Two(Shr(x, 4)), Two(Shr(x, 6)), x);
    TwoCounts(x, 0);
    TwoCounts(x, 2);
    TwoCounts(x, 4);
    TwoCounts(x, 6);
  }

  lemma FourPairs(a: word, b: word, c: word, d: word, x: word)
    requires a == Two(Shr(x, 0)) && b == Two(Shr(x, 2)) && c == Two(Shr(x, 4)) && d == Two(Shr(x, 6))
    ensures Value(Add(Add(a, b), Add(c, d))) == Value(a) + Value(b) + Value(c) + Value(d)
  {
    hide Value, Add, Two, Shr, AtMost32, AtMost2;
    TwoBits(Shr(x, 0));
    TwoBits(Shr(x, 2));
    TwoBits(Shr(x, 4));
    TwoBits(Shr(x, 6));
    PairBounds(a, b);
    PairBounds(c, d);
    ValueAdds(a, b);
    ValueAdds(c, d);
    ValueAdds(Add(a, b), Add(c, d));
  }

  lemma WeightOfByte(x: word, k: nat)
    requires k < 8
    ensures Value(ByteAt(ByteCounts(x), k)) == Count(Shr(x, 8 * k), 8)
  {
    hide Shr, ByteAt, ByteCounts, LowBitSum, Value, Count;
    ByteCountAt(x, k);
    LowBitSumCounts(Shr(x, 8 * k));
  }

  lemma ValueOfSum(a: word, b: word, c: word, d: word)
    requires AtMost8(a) && AtMost8(b) && AtMost8(c) && AtMost8(d)
    ensures Value(Sum(a, b, c, d)) == Value(a) + Value(b) + Value(c) + Value(d)
  {
    hide Value, Add, AtMost8, AtMost32;
    SumBounds(a, b, c, d);
    ValueAdds(a, b);
    ValueAdds(c, d);
    ValueAdds(Add(a, b), Add(c, d));
  }

  lemma CountOfFour(x: word, k: nat)
    requires k + 3 < 8
    ensures Value(FourBytes(ByteCounts(x), k)) == Count(Shr(x, 8 * k), 8) + Count(Shr(x, 8 * k + 8), 8)
                                                   + Count(Shr(x, 8 * k + 16), 8) + Count(Shr(x, 8 * k + 24), 8)
  {
    hide Shr, ByteAt, ByteCounts, Sum, Value, Count, AtMost8;
    forall m | k <= m < k + 4
      ensures AtMost8(ByteAt(ByteCounts(x), m)) && Value(ByteAt(ByteCounts(x), m)) == Count(Shr(x, 8 * m), 8)
    {
      ByteCountAt(x, m);
      WeightOfByte(x, m);
    }
    var y := ByteCounts(x);
    ValueOfSum(ByteAt(y, k), ByteAt(y, k + 1), ByteAt(y, k + 2), ByteAt(y, k + 3));
    assert 8 * (k + 1) == 8 * k + 8 && 8 * (k + 2) == 8 * k + 16 && 8 * (k + 3) == 8 * k + 24;
  }

  /** The parallel count is the number of set bits. */
  lemma HweightCounts(x: word)
    ensures Hweight(x) == Count(x, 64)
  {
    hide Shr, ByteAt, ByteCounts, FourBytes, BytesAtMost8, SmallBytes, Folded, Total, Low, Down, Value,
         Count, Add, AtMost32;
    var y := ByteCounts(x);
    ByteCountsSmall(x);
    SumOfBytes(y);
    ValueAdds(FourBytes(y, 0), FourBytes(y, 4));
    CountOfFour(x, 0);
    CountOfFour(x, 4);
    CountBytes(x);
  }

  lemma ByteCountsSmall(x: word)
    ensures SmallBytes(ByteCounts(x)) && BytesAtMost8(ByteCounts(x))
  {
    hide Shr, ByteAt, ByteCounts, SmallBytes, AtMost8, Down, Low;
    ByteCountsLocal(x);
    forall k | 0 <= k < 8 ensures AtMost8(ByteAt(ByteCounts(x), k)) { ByteCountAt(x, k); }
  }

  lemma CountBytes(x: word)
    ensures Count(x, 64) == Count(Shr(x, 0), 8) + Count(Shr(x, 8), 8) + Count(Shr(x, 16), 8) + Count(Shr(x, 24), 8)
                            + Count(Shr(x, 32), 8) + Count(Shr(x, 40), 8) + Count(Shr(x, 48), 8) + Count(Shr(x, 56), 8)
  {
    hide Shr, Bit;
    assert Count(x, 0) == 0;
    CountSplit(x, 0, 8);
    CountSplit(x, 8, 8);
    CountSplit(x, 16, 8);
    CountSplit(x, 24, 8);
    CountSplit(x, 32, 8);
    CountSplit(x, 40, 8);
    CountSplit(x, 48, 8);
    CountSplit(x, 56, 8);
  }
}
