/** One machine word of a bitmap: its bits, shifts, masks, the first-set-bit search and the parallel bit count. */
module Word {

  type word = bv64

  const ONES: word := 0xffff_ffff_ffff_ffff

  // ---- One step of a shift, and bit 0 ----

  function Half(w: word): word { w >> 1 }

  function Double(w: word): word { w << 1 }

  predicate Odd(w: word) { w & 1 == 1 }

  function And(a: word, b: word): word { a & b }

  function Or(a: word, b: word): word { a | b }

  function Xor(a: word, b: word): word { a ^ b }

  function Not(a: word): word { !a }

  lemma HalfAnd(a: word, b: word)
    ensures Half(And(a, b)) == And(Half(a), Half(b))
  {
  }

  lemma HalfOr(a: word, b: word)
    ensures Half(Or(a, b)) == Or(Half(a), Half(b))
  {
  }

  lemma HalfXor(a: word, b: word)
    ensures Half(Xor(a, b)) == Xor(Half(a), Half(b))
  {
  }

  lemma OddBitwise(a: word, b: word)
    ensures Odd(And(a, b)) <==> Odd(a) && Odd(b)
    ensures Odd(Or(a, b)) <==> Odd(a) || Odd(b)
    ensures Odd(Xor(a, b)) <==> Odd(a) != Odd(b)
  {
  }

  lemma HalfOfDouble(w: word)
    ensures Half(Double(w)) == And(w, Half(ONES)) && !Odd(Double(w))
  {
  }

  lemma NotIsXor(a: word)
    ensures Not(a) == Xor(a, ONES)
  {
  }

  lemma XorIsDifference(a: word, b: word)
    ensures Xor(a, b) == 0 <==> a == b
  {
    hide Xor;
    XorBack(a, b);
    XorBack(a, a);
  }

  lemma XorBack(a: word, b: word)
    ensures Xor(a, Xor(a, b)) == b && Xor(a, 0) == a && Xor(a, a) == 0
  {
  }

  lemma ZeroByHalves(w: word)
    ensures w == 0 <==> !Odd(w) && Half(w) == 0
  {
  }

  // ---- Shifts by a bit number ----

  /** `w >> n`, as n shifts by one. */
  function Shr(w: word, n: nat): word {
    if n == 0 then w else Half(Shr(w, n - 1))
  }

  /** `w << n`, as n shifts by one. */
  function Shl(w: word, n: nat): word {
    if n == 0 then w else Double(Shl(w, n - 1))
  }

  // ---- Bits ----

  /** Bit `j` of a word. */
  predicate Bit(w: word, j: nat)
    requires j < 64
  {
    Odd(Shr(w, j))
  }

  lemma {:induction false} ShrBitwise(a: word, b: word, n: nat)
    ensures Shr(And(a, b), n) == And(Shr(a, n), Shr(b, n))
    ensures Shr(Or(a, b), n) == Or(Shr(a, n), Shr(b, n))
    ensures Shr(Xor(a, b), n) == Xor(Shr(a, n), Shr(b, n))
  {
    hide And, Or, Xor, Half;
    if n > 0 {
      ShrBitwise(a, b, n - 1);
      HalfAnd(Shr(a, n - 1), Shr(b, n - 1));
      HalfOr(Shr(a, n - 1), Shr(b, n - 1));
      HalfXor(Shr(a, n - 1), Shr(b, n - 1));
    }
  }

  /** The word operators act on each bit. */
  lemma BitBitwise(a: word, b: word, j: nat)
    requires j < 64
    ensures Bit(And(a, b), j) <==> Bit(a, j) && Bit(b, j)
    ensures Bit(Or(a, b), j) <==> Bit(a, j) || Bit(b, j)
    ensures Bit(Xor(a, b), j) <==> Bit(a, j) != Bit(b, j)
    ensures Bit(Not(a), j) <==> !Bit(a, j)
  {
    hide Shr, And, Or, Xor, Not, Odd;
    ShrBitwise(a, b, j);
    OddBitwise(Shr(a, j), Shr(b, j));
    NotIsXor(a);
    ShrBitwise(a, ONES, j);
    OddBitwise(Shr(a, j), Shr(ONES, j));
    BitConstants(j);
  }

  lemma BitConstants(j: nat)
    requires j < 64
    ensures Bit(ONES, j) && !Bit(0, j)
  {
    hide Half;
    OnesShifted(j);
    ZeroShifted(j);
  }

  /** A block of ones that starts at bit 0. */
  predicate IsBlock(w: word) { w & (w + 1) == 0 }

  lemma BlockHalf(w: word)
    ensures IsBlock(ONES) && (IsBlock(w) ==> IsBlock(Half(w)))
    ensures IsBlock(w) && w != 0 ==> Odd(w)
  {
  }

  /** A word of ones stays a block of ones while it is shifted out, and is used up only after 64 shifts. */
  lemma {:induction false} OnesShifted(n: nat)
    requires n < 64
    ensures IsBlock(Shr(ONES, n)) && Odd(Shr(ONES, n))
  {
    hide Half, IsBlock, Odd;
    if n > 0 { OnesShifted(n - 1); }
    BlockHalf(if n == 0 then ONES else Shr(ONES, n - 1));
    BlockHalf(Shr(ONES, n));
    if Shr(ONES, n) == 0 {
      ZeroStays(ONES, n, 63);
      ShrBytes(ONES);
      assert false;
    }
  }

  lemma {:induction false} ZeroStays(w: word, n: nat, m: nat)
    requires n <= m && Shr(w, n) == 0
    ensures Shr(w, m) == 0
  {
    hide Half;
    HalfOfZero();
    if n < m { ZeroStays(w, n, m - 1); }
  }

  lemma ShrTwo(w: word, n: nat)
    ensures Shr(w, n + 2) == Shr(w, n) >> 2
  {
    assert Shr(w, n + 2) == Half(Shr(w, n + 1));
    assert Shr(w, n + 1) == Half(Shr(w, n));
  }

  lemma ShrFour(w: word, n: nat)
    ensures Shr(w, n + 4) == Shr(w, n) >> 4
  {
    ShrTwo(w, n);
    ShrTwo(w, n + 2);
  }

  lemma ShrEight(w: word, n: nat)
    ensures Shr(w, n + 8) == Shr(w, n) >> 8
  {
    ShrFour(w, n);
    ShrFour(w, n + 4);
  }

  /** Shifts by eight, four, two and one leave the top bit. */
  lemma ShrBytes(w: word)
    ensures Shr(w, 63) == w >> 63
  {
    ShrEight(w, 0);
    ShrEight(w, 8);
    ShrEight(w, 16);
    ShrEight(w, 24);
    ShrEight(w, 32);
    ShrEight(w, 40);
    ShrEight(w, 48);
    ShrFour(w, 56);
    ShrTwo(w, 60);
    assert Shr(w, 63) == Half(Shr(w, 62));
  }

  lemma {:induction false} ZeroShifted(n: nat)
    ensures Shr(0, n) == 0
  {
    hide Half;
    HalfOfZero();
    if n > 0 { ZeroShifted(n - 1); }
  }

  lemma HalfOfZero()
    ensures Half(0) == 0 && !Odd(0)
  {
  }

  // ---- Shifts move bits ----

  lemma {:induction false} ShrOfHalf(w: word, n: nat)
    ensures Shr(Half(w), n) == Half(Shr(w, n))
  {
    hide Half;
    if n > 0 { ShrOfHalf(w, n - 1); }
  }

  lemma BitHalf(w: word, j: nat)
    requires j < 64
    ensures Bit(Half(w), j) <==> j < 63 && Bit(w, j + 1)
  {
    hide Half, Odd;
    ShrOfHalf(w, j);
    if j < 63 { assert Shr(w, j + 1) == Half(Shr(w, j)); } else { ShrTop(w); }
  }

  lemma ShrTop(w: word)
    ensures Half(Shr(w, 63)) == 0 && !Odd(0)
  {
    ShrBytes(w);
  }

  lemma BitDouble(w: word, j: nat)
    requires j < 64
    ensures Bit(Double(w), j) <==> j > 0 && Bit(w, j - 1)
  {
    hide Double, Half, And, Odd;
    HalfOfDouble(w);
    if j > 0 {
      BitHalf(Double(w), j - 1);
      BitBitwise(w, Half(ONES), j - 1);
      BitHalf(ONES, j - 1);
      BitConstants(j);
    } else {
      assert Shr(Double(w), 0) == Double(w);
    }
  }

  /** A right shift by `n` moves bit `j + n` to `j` and fills with zeros. */
  lemma {:induction false} BitShr(w: word, n: nat, j: nat)
    requires n < 64 && j < 64
    ensures Bit(Shr(w, n), j) <==> j + n < 64 && Bit(w, j + n)
  {
    hide Bit, Half;
    if n > 0 {
      BitHalf(Shr(w, n - 1), j);
      if j < 63 { BitShr(w, n - 1, j + 1); }
    }
  }

  /** A left shift by `n` moves bit `j - n` to `j` and fills with zeros. */
  lemma {:induction false} BitShl(w: word, n: nat, j: nat)
    requires n < 64 && j < 64
    ensures Bit(Shl(w, n), j) <==> n <= j && Bit(w, j - n)
  {
    hide Bit, Double;
    if n > 0 {
      BitDouble(Shl(w, n - 1), j);
      if j > 0 { BitShl(w, n - 1, j - 1); }
    }
  }

  /** A word is zero exactly when none of its bits is set. */
  lemma ZeroIff(w: word)
    ensures w == 0 <==> forall j :: 0 <= j < 64 ==> !Bit(w, j)
  {
    hide Bit;
    if w == 0 {
      forall j | 0 <= j < 64 ensures !Bit(w, j) { BitConstants(j); }
    }
    if forall j :: 0 <= j < 64 ==> !Bit(w, j) {
      NoBitsAbove(w, 0);
      assert Shr(w, 0) == w;
    }
  }

  lemma {:induction false} NoBitsAbove(w: word, n: nat)
    requires n < 64 && forall j :: n <= j < 64 ==> !Bit(w, j)
    ensures Shr(w, n) == 0
    decreases 64 - n
  {
    hide Half, Odd;
    assert !Bit(w, n);
    if n < 63 {
      NoBitsAbove(w, n + 1);
      assert Shr(w, n + 1) == Half(Shr(w, n));
    } else {
      ShrTop(w);
    }
    ZeroByHalves(Shr(w, n));
  }

  // ---- Masks ----

  /** BITMAP_FIRST_WORD_MASK. */
  function FirstMask(start: nat): (m: word)
    ensures forall j :: 0 <= j < 64 ==> (Bit(m, j) <==> start % 64 <= j)
  {
    HighBits(start % 64);
    Shl(ONES, start % 64)
  }

  lemma HighBits(n: nat)
    requires n < 64
    ensures forall j :: 0 <= j < 64 ==> (Bit(Shl(ONES, n), j) <==> n <= j)
  {
    hide Bit, Shl;
    forall j | 0 <= j < 64 ensures Bit(Shl(ONES, n), j) <==> n <= j {
      BitShl(ONES, n, j);
      if n <= j { BitConstants(j - n); }
    }
  }

  /** BITMAP_LAST_WORD_MASK: the negated size modulo the word size, as unsigned arithmetic gives it. */
  function LastMask(bits: nat): (m: word)
    ensures forall j :: 0 <= j < 64 ==> (Bit(m, j) <==> bits % 64 == 0 || j < bits % 64)
  {
    LowBits((64 - bits % 64) % 64);
    Shr(ONES, (64 - bits % 64) % 64)
  }

  lemma LowBits(n: nat)
    requires n < 64
    ensures forall j :: 0 <= j < 64 ==> (Bit(Shr(ONES, n), j) <==> j < 64 - n)
  {
    hide Bit, Shr;
    forall j | 0 <= j < 64 ensures Bit(Shr(ONES, n), j) <==> j < 64 - n {
      BitShr(ONES, n, j);
      if j + n < 64 { BitConstants(j + n); }
    }
  }

  // ---- Searching a word ----

  predicate AnyBelow(w: word, n: nat)
    requires n <= 64
  {
    exists j :: 0 <= j < n && Bit(w, j)
  }

  lemma MaskTest(t: word, x: word, n: nat)
    requires n <= 64 && forall j :: 0 <= j < 64 ==> (Bit(t, j) <==> j < n)
    ensures And(t, x) == 0 <==> !AnyBelow(x, n)
  {
    hide Bit, And;
    var m := And(t, x);
    forall j | 0 <= j < 64 ensures Bit(m, j) <==> j < n && Bit(x, j) { BitBitwise(t, x, j); }
    SetBit(m);
    if AnyBelow(x, n) {
      var j :| 0 <= j < n && Bit(x, j);
      assert Bit(m, j);
    }
  }

  lemma SetBit(w: word)
    ensures w != 0 <==> AnyBelow(w, 64)
  {
    hide Bit;
    ZeroIff(w);
  }

  lemma ShiftedBits(x: word, n: nat)
    requires n < 64
    ensures forall j :: 0 <= j < 64 ==> (Bit(Shr(x, n), j) <==> j + n < 64 && Bit(x, j + n))
  {
    hide Bit, Shr;
    forall j | 0 <= j < 64 ensures Bit(Shr(x, n), j) <==> j + n < 64 && Bit(x, j + n) { BitShr(x, n, j); }
  }

  /** The width of the window the search has narrowed the first set bit to, before a step that halves it. */
  function Window(shift: nat): nat {
    if shift == 0 then 1 else 2 * shift
  }

  /** The mask of the low half of the window. */
  predicate LowMask(t: word, shift: nat) {
    forall j :: 0 <= j < 64 ==> (Bit(t, j) <==> j < if shift == 0 then 1 else shift)
  }

  /** `x` is what is left of `whole` after the first `n` bits. */
  predicate ShiftedBy(x: word, whole: word, n: nat) {
    forall j :: 0 <= j < 64 ==> (Bit(x, j) <==> j + n < 64 && Bit(whole, j + n))
  }

  predicate ClearUpTo(whole: word, n: nat)
    requires n <= 64
  {
    forall k :: 0 <= k < n ==> !Bit(whole, k)
  }

  predicate Searching(whole: word, x: word, t: word, shift: nat, i: nat) {
    && shift in {32, 16, 8, 4, 2, 1, 0} && 1 <= i && i - 1 + Window(shift) <= 64
    && LowMask(t, shift) && ShiftedBy(x, whole, i - 1) && AnyBelow(x, Window(shift)) && ClearUpTo(whole, i - 1)
  }

  lemma NextMask(t: word, shift: nat)
    requires shift in {32, 16, 8, 4, 2, 1} && LowMask(t, shift)
    ensures LowMask(Shr(t, shift / 2), shift / 2)
  {
    hide Bit, Shr;
    ShiftedBits(t, shift / 2);
  }

  lemma LowTest(t: word, x: word, shift: nat)
    requires 0 < shift <= 64 && LowMask(t, shift)
    ensures And(t, x) == 0 <==> !AnyBelow(x, shift)
  {
    hide Bit, And, AnyBelow;
    MaskTest(t, x, shift);
  }

  lemma ShiftedFurther(x: word, whole: word, n: nat, shift: nat)
    requires shift < 64 && ShiftedBy(x, whole, n)
    ensures ShiftedBy(Shr(x, shift), whole, n + shift)
  {
    hide Bit, Shr;
    ShiftedBits(x, shift);
    var y := Shr(x, shift);
    forall j | 0 <= j < 64
      ensures Bit(y, j) <==> j + (n + shift) < 64 && Bit(whole, j + (n + shift))
    {
      assert Bit(y, j) <==> j + shift < 64 && Bit(x, j + shift);
      if j + shift < 64 { assert Bit(x, j + shift) <==> j + shift + n < 64 && Bit(whole, j + shift + n); }
    }
  }

  /** The lower half of the window is empty: the search moves to the upper half. */
  lemma MovesUp(whole: word, x: word, t: word, shift: nat, i: nat)
    requires Searching(whole, x, t, shift, i) && shift > 0 && And(t, x) == 0
    ensures Searching(whole, Shr(x, shift), Shr(t, shift / 2), shift / 2, i + shift)
  {
    hide Shr, And, AnyBelow, LowMask, ShiftedBy, ClearUpTo;
    LowTest(t, x, shift);
    NoneBelow(x, whole, i - 1, shift);
    ShiftedFurther(x, whole, i - 1, shift);
    MovedDown(x, shift);
    NextMask(t, shift);
  }

  lemma StaysLow(whole: word, x: word, t: word, shift: nat, i: nat)
    requires Searching(whole, x, t, shift, i) && shift > 0 && And(t, x) != 0
    ensures Searching(whole, x, Shr(t, shift / 2), shift / 2, i)
  {
    hide Shr, And, AnyBelow, LowMask, ShiftedBy, ClearUpTo;
    LowTest(t, x, shift);
    NextMask(t, shift);
  }

  lemma SearchStarts(whole: word)
    requires whole != 0
    ensures Searching(whole, whole, Shr(ONES, 32), 32, 1)
  {
    hide Bit, Shr, AnyBelow;
    LowBits(32);
    SetBit(whole);
  }

  lemma SearchEnds(whole: word, x: word, t: word, i: nat)
    requires Searching(whole, x, t, 0, i)
    ensures 1 <= i <= 64 && Bit(whole, i - 1) && forall k :: 0 <= k < i - 1 ==> !Bit(whole, k)
  {
    hide Bit, AnyBelow;
    LowestOnly(x);
  }

  /** bitops_ffs, the portable branch: halving search for the lowest set bit, counted from one. */
  method FindFirstSet(whole: word) returns (i: nat)
    ensures whole == 0 ==> i == 0
    ensures whole != 0 ==> 1 <= i <= 64 && Bit(whole, i - 1) && forall k :: 0 <= k < i - 1 ==> !Bit(whole, k)
  {
    hide Bit, Shr, And, Searching;
    if whole == 0 {
      return 0;
    }
    var x, t := whole, ONES;
    var shift: nat := 64;
    i := 1;
    shift := shift / 2;
    t := Shr(t, shift);
    SearchStarts(whole);
    while shift > 0
      invariant Searching(whole, x, t, shift, i)
    {
      if And(t, x) == 0 {
        MovesUp(whole, x, t, shift, i);
        i := i + shift;
        x := Shr(x, shift);
      } else {
        StaysLow(whole, x, t, shift, i);
      }
      shift := shift / 2;
      t := Shr(t, shift);
    }
    SearchEnds(whole, x, t, i);
  }

  lemma LowestOnly(w: word)
    requires AnyBelow(w, 1)
    ensures Bit(w, 0)
  {
  }

  lemma NoneBelow(x: word, whole: word, base: nat, n: nat)
    requires n <= 64 && base + n <= 64 && !AnyBelow(x, n) && ShiftedBy(x, whole, base) && ClearUpTo(whole, base)
    ensures ClearUpTo(whole, base + n)
  {
    hide Bit, AnyBelow, ShiftedBy;
    forall k | base <= k < base + n ensures !Bit(whole, k) {
      NotThere(x, n, k - base);
      ShiftedAt(x, whole, base, k - base);
    }
  }

  lemma NotThere(x: word, n: nat, j: nat)
    requires n <= 64 && j < n && !AnyBelow(x, n)
    ensures !Bit(x, j)
  {
    hide Bit;
  }

  lemma ShiftedAt(x: word, whole: word, base: nat, j: nat)
    requires j < 64 && ShiftedBy(x, whole, base)
    ensures Bit(x, j) <==> j + base < 64 && Bit(whole, j + base)
  {
    hide Bit;
  }

  lemma MovedDown(x: word, n: nat)
    requires n <= 32 && AnyBelow(x, 2 * n) && !AnyBelow(x, n)
    ensures AnyBelow(Shr(x, n), n)
  {
    hide Bit, Shr;
    var j :| 0 <= j < 2 * n && Bit(x, j);
    BitShr(x, n, j - n);
  }
}
