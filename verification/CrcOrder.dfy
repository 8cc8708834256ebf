/**
 Errors of exactly two bits. They cancel when the second comes a multiple of the order of x after the first, and
 that order, modulo the polynomial of the code, is 32767 = 7 * 31 * 151.
 */
module CrcOrder {
  import opened Crc

  // ---- Powers of x ----

  function Shifts(n: nat, c: bv16): bv16 {
    if n == 0 then c else Shift(Shifts(n - 1, c))
  }

  /** x to the power n, modulo the polynomial. */
  function Power(n: nat): bv16 { Shifts(n, 1) }

  lemma {:induction false} ShiftsAdd(m: nat, n: nat, c: bv16)
    ensures Shifts(m + n, c) == Shifts(m, Shifts(n, c))
  {
    hide Shift;
    if m > 0 { ShiftsAdd(m - 1, n, c); }
  }

  lemma {:induction false} ShiftsLinear(n: nat, c: bv16, d: bv16)
    ensures Shifts(n, Xor(c, d)) == Xor(Shifts(n, c), Shifts(n, d))
  {
    hide Shift, Xor;
    if n > 0 {
      ShiftsLinear(n - 1, c, d);
      ShiftLinear(Shifts(n - 1, c), Shifts(n - 1, d));
    }
  }

  lemma ShiftInjective(c: bv16, d: bv16)
    requires Shift(c) == Shift(d)
    ensures c == d
  {
  }

  lemma {:induction false} ShiftsInjective(n: nat, c: bv16, d: bv16)
    requires Shifts(n, c) == Shifts(n, d)
    ensures c == d
  {
    hide Shift;
    if n > 0 {
      ShiftInjective(Shifts(n - 1, c), Shifts(n - 1, d));
      ShiftsInjective(n - 1, c, d);
    }
  }

  lemma ShiftZero()
    ensures Shift(0) == 0
  {
  }

  lemma {:induction false} ShiftsZero(n: nat)
    ensures Shifts(n, 0) == 0
  {
    hide Shift;
    ShiftZero();
    if n > 0 { ShiftsZero(n - 1); }
  }

  // ---- Products ----

  /** The product of the lowest k bits of v with w, by Horner's rule. */
  function Times(v: bv16, w: bv16, k: nat): bv16 {
    if k == 0 then 0 else Xor(Shift(Times(Half(v), w, k - 1)), if Low(v) then w else 0)
  }

  predicate Within(v: bv16, k: nat) {
    if k == 0 then v == 0 else Within(Half(v), k - 1)
  }

  lemma HalfAndLow(v: bv16)
    ensures v == Xor(Shift(Half(v)), if Low(v) then 1 else 0)
  {
  }

  lemma AllWithin(v: bv16)
    ensures Within(v, 16)
  {
    hide Half;
    var h := Half(Half(Half(Half(v))));
    var i := Half(Half(Half(Half(h))));
    var j := Half(Half(Half(Half(i))));
    FourHalves(v);
    FourHalves(h);
    FourHalves(i);
    FourHalves(j);
    Within4(v, 12);
    Within4(h, 8);
    Within4(i, 4);
    Within4(j, 0);
  }

  lemma Within4(v: bv16, k: nat)
    ensures Within(v, k + 4) <==> Within(Half(Half(Half(Half(v)))), k)
  {
    hide Half;
    assert Within(v, k + 4) == Within(Half(v), k + 3);
    assert Within(Half(v), k + 3) == Within(Half(Half(v)), k + 2);
    assert Within(Half(Half(v)), k + 2) == Within(Half(Half(Half(v))), k + 1);
  }

  lemma FourHalves(v: bv16)
    ensures Half(Half(Half(Half(v)))) == v >> 4
  {
  }

  /** Shifting n times is multiplying by x to the power n. */
  lemma {:induction false} ShiftsAreProduct(n: nat, v: bv16, k: nat)
    requires Within(v, k)
    ensures Shifts(n, v) == Times(v, Power(n), k)
    decreases k
  {
    hide Shift, Half, Low, Xor;
    if k == 0 {
      ShiftsZero(n);
    } else {
      var bit := if Low(v) then 1 else 0;
      HalfAndLow(v);
      ShiftsLinear(n, Shift(Half(v)), bit);
      ShiftsAdd(n, 1, Half(v));
      ShiftsAdd(1, n, Half(v));
      ShiftsZero(n);
      ShiftsAreProduct(n, Half(v), k - 1);
      Once(Half(v));
      Once(Shifts(n, Half(v)));
    }
  }

  lemma Once(c: bv16)
    ensures Shifts(1, c) == Shift(c)
  {
    hide Shift;
    assert Shifts(0, c) == c;
  }

  function Push(acc: bv16, bit: bool, w: bv16): bv16 { Xor(Shift(acc), if bit then w else 0) }

  /** Four steps of Horner's rule. */
  function Push4(acc: bv16, v: bv16, w: bv16): bv16 {
    Push(Push(Push(Push(acc, v & 8 != 0, w), v & 4 != 0, w), v & 2 != 0, w), v & 1 != 0, w)
  }

  function Square(v: bv16): bv16 {
    Push4(Push4(Push4(Push4(0, v >> 12, v), v >> 8, v), v >> 4, v), v, v)
  }

  lemma LowestFour(v: bv16)
    ensures Low(v) == (v & 1 != 0) && Low(Half(v)) == (v & 2 != 0)
    ensures Low(Half(Half(v))) == (v & 4 != 0) && Low(Half(Half(Half(v)))) == (v & 8 != 0)
  {
  }

  lemma Times4(v: bv16, w: bv16, k: nat)
    ensures Times(v, w, k + 4) == Push4(Times(v >> 4, w, k), v, w)
  {
    hide Shift, Half, Low, Xor;
    var h, i, j := Half(v), Half(Half(v)), Half(Half(Half(v)));
    LowestFour(v);
    FourHalves(v);
    assert Times(j, w, k + 1) == Push(Times(Half(j), w, k), Low(j), w);
    assert Times(i, w, k + 2) == Push(Times(j, w, k + 1), Low(i), w);
    assert Times(h, w, k + 3) == Push(Times(i, w, k + 2), Low(h), w);
  }

  lemma FourShifts(v: bv16)
    ensures v >> 4 >> 4 == v >> 8 && v >> 8 >> 4 == v >> 12
  {
  }

  lemma SquareIsProduct(v: bv16)
    ensures Times(v, v, 16) == Square(v)
  {
    hide Push4, Times;
    FourShifts(v);
    Times4(v, v, 12);
    Times4(v >> 4, v, 8);
    Times4(v >> 8, v, 4);
    Times4(v >> 12, v, 0);
    TimesNothing(v >> 12 >> 4, v);
  }

  lemma TimesNothing(v: bv16, w: bv16)
    ensures Times(v, w, 0) == 0
  {
  }

  /** Squaring doubles the exponent. */
  lemma Squared(n: nat, v: bv16)
    requires Power(n) == v
    ensures Power(2 * n) == Square(v) && Power(2 * n + 1) == Shift(Square(v))
  {
    hide Shift, Times, Square;
    AllWithin(v);
    ShiftsAreProduct(n, v, 16);
    SquareIsProduct(v);
    ShiftsAdd(n, n, 1);
    assert 2 * n == n + n;
  }

  // ---- The order of x ----

  lemma FirstPower()
    ensures Power(1) == 2
  {
    Once(1);
  }

  lemma FullSquares()
    ensures Shift(Square(0x2)) == 0x8
    ensures Shift(Square(0x8)) == 0x80
    ensures Shift(Square(0x80)) == 0x8000
    ensures Shift(Square(0x8000)) == 0x1b98
    ensures Shift(Square(0x1b98)) == 0xd420
    ensures Shift(Square(0xd420)) == 0x577e
    ensures Shift(Square(0x577e)) == 0xcf04
  {
  }

  lemma MoreSquares()
    ensures Shift(Square(0xcf04)) == 0x9fe
    ensures Shift(Square(0x9fe)) == 0x1b62
    ensures Shift(Square(0x1b62)) == 0x7ea8
    ensures Shift(Square(0x7ea8)) == 0x554f
    ensures Shift(Square(0x554f)) == 0x440e
    ensures Shift(Square(0x440e)) == 0x222c
    ensures Shift(Square(0x222c)) == 0x1
  {
  }

  lemma Full()
    ensures Power(32767) == 1
  {
    hide Power;
    FirstPower();
    FullSquares();
    MoreSquares();
    Squared(1, 0x2);
    Squared(3, 0x8);
    Squared(7, 0x80);
    Squared(15, 0x8000);
    Squared(31, 0x1b98);
    Squared(63, 0xd420);
    Squared(127, 0x577e);
    Squared(255, 0xcf04);
    Squared(511, 0x9fe);
    Squared(1023, 0x1b62);
    Squared(2047, 0x7ea8);
    Squared(4095, 0x554f);
    Squared(8191, 0x440e);
    Squared(16383, 0x222c);
  }

  lemma SeventhSquares()
    ensures Square(0x2) == 0x4
    ensures Square(0x4) == 0x10
    ensures Shift(Square(0x10)) == 0x200
    ensures Square(0x200) == 0x4084
    ensures Square(0x4084) == 0x4363
    ensures Shift(Square(0x4363)) == 0x8fa6
  {
  }

  lemma MoreSeventhSquares()
    ensures Square(0x8fa6) == 0x4388
    ensures Square(0x4388) == 0x1396
    ensures Shift(Square(0x1396)) == 0x4500
    ensures Square(0x4500) == 0x163
    ensures Square(0x163) == 0x424
    ensures Shift(Square(0x424)) == 0x2c42
  {
  }

  lemma Seventh()
    ensures Power(4681) != 1
  {
    hide Power;
    FirstPower();
    SeventhSquares();
    MoreSeventhSquares();
    Squared(1, 0x2);
    Squared(2, 0x4);
    Squared(4, 0x10);
    Squared(9, 0x200);
    Squared(18, 0x4084);
    Squared(36, 0x4363);
    Squared(73, 0x8fa6);
    Squared(146, 0x4388);
    Squared(292, 0x1396);
    Squared(585, 0x4500);
    Squared(1170, 0x163);
    Squared(2340, 0x424);
  }

  lemma ThirtyFirstSquares()
    ensures Square(0x2) == 0x4
    ensures Square(0x4) == 0x10
    ensures Square(0x10) == 0x100
    ensures Square(0x100) == 0x1021
    ensures Shift(Square(0x1021)) == 0x6e60
    ensures Square(0x6e60) == 0xc1c6
    ensures Square(0xc1c6) == 0x4e8a
    ensures Square(0x4e8a) == 0x5946
    ensures Square(0x5946) == 0x78b3
    ensures Shift(Square(0x78b3)) == 0xf2af
  {
  }

  lemma ThirtyFirst()
    ensures Power(1057) != 1
  {
    hide Power;
    FirstPower();
    ThirtyFirstSquares();
    Squared(1, 0x2);
    Squared(2, 0x4);
    Squared(4, 0x10);
    Squared(8, 0x100);
    Squared(16, 0x1021);
    Squared(33, 0x6e60);
    Squared(66, 0xc1c6);
    Squared(132, 0x4e8a);
    Squared(264, 0x5946);
    Squared(528, 0x78b3);
  }

  lemma LastSquares()
    ensures Shift(Square(0x2)) == 0x8
    ensures Square(0x8) == 0x40
    ensures Shift(Square(0x40)) == 0x2000
    ensures Shift(Square(0x2000)) == 0x89a9
    ensures Square(0x89a9) == 0x1168
    ensures Square(0x1168) == 0x3750
    ensures Shift(Square(0x3750)) == 0x48e3
  {
  }

  lemma Last()
    ensures Power(217) != 1
  {
    hide Power;
    FirstPower();
    LastSquares();
    Squared(1, 0x2);
    Squared(3, 0x8);
    Squared(6, 0x40);
    Squared(13, 0x2000);
    Squared(27, 0x89a9);
    Squared(54, 0x1168);
    Squared(108, 0x3750);
  }

  predicate Period(n: nat) { Power(n) == 1 }

  lemma PeriodShift(m: nat, n: nat)
    requires Period(n)
    ensures Period(m + n) <==> Period(m)
  {
    hide Shift;
    ShiftsAdd(m, n, 1);
  }

  lemma {:induction false} PeriodMultiple(d: nat, k: nat)
    requires Period(d)
    ensures Period(d * k)
    decreases k
  {
    hide Period;
    if k == 0 {
      NoShift();
    } else {
      PeriodMultiple(d, k - 1);
      PeriodShift(d * (k - 1), d);
      assert d * (k - 1) + d == d * k;
    }
  }

  lemma NoShift()
    ensures Period(0)
  {
  }

  /** What is left of a period after taking away another one as often as possible is a period. */
  lemma PeriodRemainder(n: nat, d: nat)
    requires d > 0 && Period(d)
    ensures Period(n) <==> Period(n % d)
  {
    hide Period;
    PeriodMultiple(d, n / d);
    PeriodShift(n % d, d * (n / d));
    assert n == n % d + d * (n / d);
  }

  function Gcd(a: nat, b: nat): nat
    decreases b
  {
    if b == 0 then a else Gcd(b, a % b)
  }

  lemma {:induction false} GcdDivides(a: nat, b: nat) returns (x: nat, y: nat)
    requires a > 0 || b > 0
    ensures Gcd(a, b) > 0 && a == Gcd(a, b) * x && b == Gcd(a, b) * y
    decreases b
  {
    if b == 0 {
      x, y := 1, 0;
    } else {
      var u, v := GcdDivides(b, a % b);
      x, y := (a / b) * u + v, u;
      Quotient(a, b);
      Combined(Gcd(a, b), b, u, a % b, v, a / b);
    }
  }

  lemma Combined(g: int, b: int, u: int, r: int, v: int, q: int)
    requires b == g * u && r == g * v
    ensures b * q + r == g * (q * u + v)
  {
    Swap(g, u, q);
    assert g * (q * u + v) == g * (q * u) + g * v;
  }

  lemma {:induction false} GcdPeriod(a: nat, b: nat)
    requires Period(a) && Period(b)
    ensures Period(Gcd(a, b))
    decreases b
  {
    hide Period;
    if b > 0 {
      PeriodRemainder(a, b);
      GcdPeriod(b, a % b);
    }
  }

  // ---- The divisors of 32767 ----

  /** 7, 31 and 151 are primes. */
  predicate Factor(p: nat) { p == 7 || p == 31 || p == 151 }

  lemma Prime(p: nat, k: nat, x: nat)
    requires Factor(p) && k * x == p
    ensures k == 1 || x == 1
  {
    if k > 12 && x > 12 {
      AtLeast(k, x);
    } else if k <= 12 {
      NotSmall(p, k, x);
    } else {
      NotSmall(p, x, k);
    }
  }

  lemma AtLeast(k: nat, x: nat)
    requires k >= 13 && x >= 13
    ensures k * x >= 169
  {
    assert k * x == 13 * x + (k - 13) * x;
    assert (k - 13) * x >= 0;
  }

  lemma NotSmall(p: nat, k: nat, x: nat)
    requires Factor(p) && k * x == p && k <= 12
    ensures k == 1 || x == 1
  {
    assert k == 0 ==> p == 0;
    assert k == 2 ==> 2 * x == p;
    assert k == 3 ==> 3 * x == p;
    assert k == 4 ==> 4 * x == p;
    assert k == 5 ==> 5 * x == p;
    assert k == 6 ==> 6 * x == p;
    assert k == 7 ==> 7 * x == p;
    assert k == 8 ==> 8 * x == p;
    assert k == 9 ==> 9 * x == p;
    assert k == 10 ==> 10 * x == p;
    assert k == 11 ==> 11 * x == p;
    assert k == 12 ==> 12 * x == p;
  }

  lemma Quotient(n: nat, d: nat)
    requires d > 0
    ensures n == d * (n / d) + n % d && n % d < d
  {
  }

  lemma Descent(p: int, r: int, q: int, s: int, t: int, u: int)
    requires p == r * q + s && r * t == p * u
    ensures s * t == p * (t - q * u)
  {
    Swap(r, q, t);
    Swap(p, q, u);
    assert (r * q + s) * t == (r * q) * t + s * t;
    assert p * (t - q * u) == p * t - p * (q * u);
  }

  lemma Swap(a: int, b: int, c: int)
    ensures (a * b) * c == b * (a * c) == a * (b * c)
  {
  }

  /** A prime that divides a product, and not the first factor, divides the second one. */
  lemma {:induction false} Euclid(p: nat, r: nat, t: nat, u: int) returns (v: int)
    requires Factor(p) && 0 < r < p && r * t == p * u
    ensures t == p * v
    decreases r
  {
    if r == 1 {
      v := u;
    } else {
      var q, s := p / r, p % r;
      Quotient(p, r);
      if s == 0 { Prime(p, r, q); }
      Descent(p, r, q, s, t, u);
      v := Euclid(p, s, t, t - q * u);
    }
  }

  lemma EitherOr(p: nat, d: nat, e: nat, n: nat)
    requires Factor(p) && d * e == p * n
    ensures d % p == 0 || e % p == 0
  {
    var q, r := d / p, d % p;
    if r != 0 {
      Quotient(d, p);
      Leftover(p, d, e, n, q, r);
      var v := Euclid(p, r, e, n - q * e);
      Divided(p, e, v);
    }
  }

  lemma Leftover(p: int, d: int, e: int, n: int, q: int, r: int)
    requires d * e == p * n && d == p * q + r
    ensures r * e == p * (n - q * e)
  {
    Swap(p, q, e);
    assert (p * q + r) * e == (p * q) * e + r * e;
    assert p * (n - q * e) == p * n - p * (q * e);
  }

  lemma Divided(p: int, e: nat, v: int)
    requires p > 0 && e == p * v
    ensures e % p == 0
  {
    var k := v - e / p;
    assert e == p * (e / p) + e % p;
    assert p * k == e % p;
    assert k >= 1 ==> p * k >= p;
    assert k <= -1 ==> p * k <= -p;
  }

  /** A cofactor larger than one has one of the primes. */
  lemma Cofactor(d: nat, e: nat)
    requires d * e == 32767 && e > 1
    ensures e % 7 == 0 || e % 31 == 0 || e % 151 == 0
  {
    EitherOr(7, d, e, 4681);
    if e % 7 != 0 {
      var d1 := d / 7;
      assert 7 * (d1 * e) == 7 * 4681 by { assert d == 7 * d1; assert (7 * d1) * e == 7 * (d1 * e); }
      EitherOr(31, d1, e, 151);
      if e % 31 != 0 {
        var d2 := d1 / 31;
        assert 31 * (d2 * e) == 31 * 151 by { assert d1 == 31 * d2; assert (31 * d2) * e == 31 * (d2 * e); }
        Prime(151, d2, e);
      }
    }
  }

  /** x to the power n is one if and only if 32767 divides n. */
  lemma OrderIsExact(n: nat)
    ensures Period(n) <==> n % 32767 == 0
  {
    hide Period;
    FullPeriod();
    PeriodRemainder(n, 32767);
    var m := n % 32767;
    if m == 0 { NoShift(); } else { TooShort(m); }
  }

  lemma FullPeriod()
    ensures Period(32767) && !Period(4681) && !Period(1057) && !Period(217)
  {
    hide Power;
    Full();
    Seventh();
    ThirtyFirst();
    Last();
  }

  /** A period and 32767 have their greatest common divisor as a period, so none is shorter. */
  lemma TooShort(m: nat)
    requires 0 < m < 32767
    ensures !Period(m)
  {
    hide Period;
    FullPeriod();
    var d := Gcd(m, 32767);
    var x, e := GcdDivides(m, 32767);
    Larger(d, x, e, m);
    Cofactor(d, e);
    if Period(m) {
      GcdPeriod(m, 32767);
      if e % 7 == 0 {
        Share(d, e, 7, 4681);
      } else if e % 31 == 0 {
        Share(d, e, 31, 1057);
      } else {
        Share(d, e, 151, 217);
      }
      assert false;
    }
  }

  lemma Larger(d: nat, x: nat, e: nat, m: nat)
    requires m == d * x && 0 < m < 32767 && d * e == 32767
    ensures e > 1
  {
    assert x == 0 ==> d * x == 0;
    assert d * x >= d;
    assert e == 0 ==> d * e == 0;
    assert e == 1 ==> d * e == d;
  }

  lemma Share(d: nat, e: nat, p: nat, n: nat)
    requires Period(d) && p > 0 && e % p == 0 && d * e == p * n
    ensures Period(n)
  {
    hide Period;
    assert e == p * (e / p);
    assert p * (d * (e / p)) == d * (p * (e / p));
    SameProduct(p, d * (e / p), n);
    PeriodMultiple(d, e / p);
  }

  lemma SameProduct(p: nat, a: nat, b: nat)
    requires p > 0 && p * a == p * b
    ensures a == b
  {
    assert p * (a - b) == 0;
  }

  // ---- Two wrong bits ----

  lemma FeedDifference(c: bv16, d: bv16, x: bool, y: bool)
    ensures Xor(FeedBit(c, x), FeedBit(d, y)) == Shift(Xor(Xor(c, d), if x == y then 0 else 0x8000))
  {
    hide Shift, Xor, FeedBit;
    var u, v := if x then 0x8000 else 0, if y then 0x8000 else 0;
    FeedIsShift(c, x);
    FeedIsShift(d, y);
    ShiftLinear(Xor(c, u), Xor(d, v));
    Regrouped(c, u, d, v);
    XorTop();
  }

  lemma Regrouped(c: bv16, u: bv16, d: bv16, v: bv16)
    ensures Xor(Xor(c, u), Xor(d, v)) == Xor(Xor(c, d), Xor(u, v))
  {
    hide Xor;
    XorAssociates(c, u, Xor(d, v));
    XorAssociates(u, d, v);
    XorCommutes(u, d);
    XorAssociates(d, u, v);
    XorAssociates(c, d, Xor(u, v));
  }

  lemma XorAssociates(a: bv16, b: bv16, c: bv16)
    ensures Xor(Xor(a, b), c) == Xor(a, Xor(b, c))
  {
  }

  lemma XorCommutes(a: bv16, b: bv16)
    ensures Xor(a, b) == Xor(b, a)
  {
  }

  /** Under the same input the difference of two registers is shifted along. */
  lemma {:induction false} SameInput(c: bv16, d: bv16, s: seq<bool>)
    ensures Xor(Feed(c, s), Feed(d, s)) == Shifts(|s|, Xor(c, d))
    decreases |s|
  {
    hide FeedBit, Shift, Xor;
    if s != [] {
      var c1, d1 := FeedBit(c, s[0]), FeedBit(d, s[0]);
      SameInput(c1, d1, s[1..]);
      FeedDifference(c, d, s[0], s[0]);
      XorZero(Xor(c, d));
      ShiftsAdd(|s| - 1, 1, Xor(c, d));
      Once(Xor(c, d));
    }
  }

  lemma XorSame(c: bv16, d: bv16)
    ensures Xor(c, d) == 0 <==> c == d
  {
    hide Xor;
    XorSelf(d);
    XorAssociates(c, d, d);
    XorZero(c);
    XorCommutes(0, d);
    XorZero(d);
  }

  lemma XorSelf(c: bv16)
    ensures Xor(c, c) == 0
  {
  }

  lemma TopBit()
    ensures Power(15) == 0x8000
  {
    hide Power;
    FirstPower();
    FullSquares();
    Squared(1, 0x2);
    Squared(3, 0x8);
    Squared(7, 0x80);
  }

  /** The top bit comes back after n shifts if and only if 32767 divides n. */
  lemma TopComesBack(n: nat)
    ensures Shifts(n, 0x8000) == 0x8000 <==> n % 32767 == 0
  {
    hide Shift;
    TopBit();
    OrderIsExact(n);
    ShiftsAdd(n, 15, 1);
    ShiftsAdd(15, n, 1);
    assert n + 15 == 15 + n;
    if Shifts(n, 0x8000) == 0x8000 { ShiftsInjective(15, Power(n), 1); }
  }

  /** Wrong bits before and after a common stretch: the registers meet again if and only if the errors cancel. */
  lemma TwoErrors(c: bv16, x: bool, s: seq<bool>, y: bool)
    ensures Feed(c, [x] + s + [y]) == Feed(c, [!x] + s + [!y]) <==> (|s| + 1) % 32767 == 0
  {
    hide FeedBit, Shift, Xor, Feed;
    var c1, d1 := FeedBit(c, x), FeedBit(c, !x);
    var c2, d2 := Feed(c1, s), Feed(d1, s);
    Around(c, x, s, y);
    Around(c, !x, s, !y);
    FeedDifference(c, c, x, !x);
    XorSame(c, c);
    XorTop();
    SameInput(c1, d1, s);
    ShiftsAdd(|s|, 1, 0x8000);
    Once(0x8000);
    TopComesBack(|s| + 1);
    FeedDifference(c2, d2, y, !y);
    XorSame(FeedBit(c2, y), FeedBit(d2, !y));
    XorSame(Xor(c2, d2), 0x8000);
    ShiftOnlyZero(Xor(Xor(c2, d2), 0x8000));
  }

  lemma XorTop()
    ensures Xor(0, 0) == 0 && Xor(0x8000, 0x8000) == 0 && Xor(0, 0x8000) == 0x8000 && Xor(0x8000, 0) == 0x8000
  {
  }

  lemma ShiftOnlyZero(c: bv16)
    ensures Shift(c) == 0 <==> c == 0
  {
  }

  lemma Around(c: bv16, x: bool, s: seq<bool>, y: bool)
    ensures Feed(c, [x] + s + [y]) == FeedBit(Feed(FeedBit(c, x), s), y)
  {
    hide FeedBit;
    var d := Feed(FeedBit(c, x), s);
    assert ([x] + s + [y])[1..] == s + [y];
    FeedConcat(FeedBit(c, x), s, [y]);
    assert [y][1..] == [];
  }

  /**
   Two wrong bits, at i and j, in a message of any length: the code changes if and only if their distance is not a
   multiple of 32767, in particular whenever they are closer than that.
   */
  lemma TwoBitsDetected(c: bv16, a: seq<bool>, b: seq<bool>, i: nat, j: nat)
    requires |a| == |b| && i < j < |a|
    requires forall k :: 0 <= k < |a| ==> (a[k] != b[k] <==> k == i || k == j)
    ensures Feed(c, a) != Feed(c, b) <==> (j - i) % 32767 != 0
  {
    hide Feed;
    var p, s, t := a[..i], a[i + 1..j], a[j + 1..];
    FiveParts(a, i, j);
    FiveParts(b, i, j);
    assert b[..i] == p && b[i + 1..j] == s && b[j + 1..] == t;
    InTheMiddle(c, p, [a[i]] + s + [a[j]], t);
    InTheMiddle(c, p, [!a[i]] + s + [!a[j]], t);
    TwoErrors(Feed(c, p), a[i], s, a[j]);
    StillApart(Feed(c, p), [a[i]] + s + [a[j]], [!a[i]] + s + [!a[j]], t);
  }

  lemma FiveParts(a: seq<bool>, i: nat, j: nat)
    requires i < j < |a|
    ensures a == a[..i] + ([a[i]] + a[i + 1..j] + [a[j]]) + a[j + 1..]
  {
  }

  lemma InTheMiddle(c: bv16, p: seq<bool>, u: seq<bool>, t: seq<bool>)
    ensures Feed(c, p + u + t) == Feed(Feed(Feed(c, p), u), t)
  {
    hide Feed;
    FeedConcat(c, p + u, t);
    FeedConcat(c, p, u);
  }

  lemma StillApart(c: bv16, u: seq<bool>, v: seq<bool>, t: seq<bool>)
    ensures Feed(c, u) == Feed(c, v) <==> Feed(Feed(c, u), t) == Feed(Feed(c, v), t)
  {
    hide Feed;
    if Feed(c, u) != Feed(c, v) { FeedInjective(Feed(c, u), Feed(c, v), t); }
  }
}
