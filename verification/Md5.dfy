/** MD5 with buffered input: whatever the chunks, the digest is that of RFC 1321 for their concatenation. */
module Md5 {

  // ---- RFC 1321, section 3.4: the compression of one block ----

  datatype Regs = Regs(a: bv32, b: bv32, c: bv32, d: bv32)

  const INIT := Regs(0x67452301, 0xefcdab89, 0x98badcfe, 0x10325476)

  // The table of section 3.4: the integer part of 4294967296 times abs(sin(i + 1)), sixteen entries a round.

  const SINES_1: seq<bv32> := [
    3614090360, 3905402710, 606105819, 3250441966, 4118548399, 1200080426, 2821735955, 4249261313,
    1770035416, 2336552879, 4294925233, 2304563134, 1804603682, 4254626195, 2792965006, 1236535329
  ]

  const SINES_2: seq<bv32> := [
    4129170786, 3225465664, 643717713, 3921069994, 3593408605, 38016083, 3634488961, 3889429448,
    568446438, 3275163606, 4107603335, 1163531501, 2850285829, 4243563512, 1735328473, 2368359562
  ]

  const SINES_3: seq<bv32> := [
    4294588738, 2272392833, 1839030562, 4259657740, 2763975236, 1272893353, 4139469664, 3200236656,
    681279174, 3936430074, 3572445317, 76029189, 3654602809, 3873151461, 530742520, 3299628645
  ]

  const SINES_4: seq<bv32> := [
    4096336452, 1126891415, 2878612391, 4237533241, 1700485571, 2399980690, 4293915773, 2240044497,
    1873313359, 4264355552, 2734768916, 1309151649, 4149444226, 3174756917, 718787259, 3951481745
  ]

  function Sine(i: nat): bv32
    requires i < 64
  {
    if i < 16 then SINES_1[i]
    else if i < 32 then SINES_2[i - 16]
    else if i < 48 then SINES_3[i - 32]
    else SINES_4[i - 48]
  }

  function F(x: bv32, y: bv32, z: bv32): bv32 { (x & y) | (!x & z) }
  function G(x: bv32, y: bv32, z: bv32): bv32 { (x & z) | (y & !z) }
  function H(x: bv32, y: bv32, z: bv32): bv32 { x ^ y ^ z }
  function I(x: bv32, y: bv32, z: bv32): bv32 { y ^ (x | !z) }

  /** The function of the round that operation `i` belongs to. */
  function Mix(i: nat, x: bv32, y: bv32, z: bv32): bv32 {
    if i < 16 then F(x, y, z) else if i < 32 then G(x, y, z) else if i < 48 then H(x, y, z) else I(x, y, z)
  }

  /** Which word of the block operation `i` takes. */
  function WordIndex(i: nat): (k: nat)
    ensures k < 16
  {
    if i < 16 then i else if i < 32 then (1 + 5 * i) % 16 else if i < 48 then (5 + 3 * i) % 16 else (7 * i) % 16
  }

  /** How far operation `i` rotates. */
  function Turn(i: nat): (s: bv6)
    ensures s <= 32
  {
    var j := i % 4;
    if i < 16 then (if j == 0 then 7 else if j == 1 then 12 else if j == 2 then 17 else 22)
    else if i < 32 then (if j == 0 then 5 else if j == 1 then 9 else if j == 2 then 14 else 20)
    else if i < 48 then (if j == 0 then 4 else if j == 1 then 11 else if j == 2 then 16 else 23)
    else (if j == 0 then 6 else if j == 1 then 10 else if j == 2 then 15 else 21)
  }

  function Rotate(w: bv32, s: bv6): bv32
    requires s <= 32
  {
    (w << s) | (w >> (32 - s))
  }

  function Turned(a: bv32, mix: bv32, word: bv32, sine: bv32, turn: bv6, b: bv32): bv32
    requires turn <= 32
  {
    Rotate(a + mix + word + sine, turn) + b
  }

  /** [abcd k s i]: the new value of the first register. */
  function Op(i: nat, x: seq<bv32>, a: bv32, b: bv32, c: bv32, d: bv32): bv32
    requires i < 64 && |x| == 16
  {
    Turned(a, Mix(i, b, c, d), x[WordIndex(i)], Sine(i), Turn(i), b)
  }

  /** Operation `i` on the registers: it writes A, D, C, B in turn, the others keep their places. */
  function Operation(v: Regs, x: seq<bv32>, i: nat): Regs
    requires i < 64 && |x| == 16
  {
    if i % 4 == 0 then v.(a := Op(i, x, v.a, v.b, v.c, v.d))
    else if i % 4 == 1 then v.(d := Op(i, x, v.d, v.a, v.b, v.c))
    else if i % 4 == 2 then v.(c := Op(i, x, v.c, v.d, v.a, v.b))
    else v.(b := Op(i, x, v.b, v.c, v.d, v.a))
  }

  function Operations(v: Regs, x: seq<bv32>, n: nat): Regs
    requires n <= 64 && |x| == 16
  {
    if n == 0 then v else Operation(Operations(v, x, n - 1), x, n - 1)
  }

  function AddRegs(v: Regs, w: Regs): Regs {
    Regs(v.a + w.a, v.b + w.b, v.c + w.c, v.d + w.d)
  }

  function Compress(v: Regs, x: seq<bv32>): Regs
    requires |x| == 16
  {
    AddRegs(Operations(v, x, 64), v)
  }

  /** Four bytes as a word, low-order byte first. */
  function Word(m: seq<bv8>, at: nat): bv32
    requires at + 4 <= |m|
  {
    (m[at] as bv32) | ((m[at + 1] as bv32) << 8) | ((m[at + 2] as bv32) << 16) | ((m[at + 3] as bv32) << 24)
  }

  function Words(m: seq<bv8>): (x: seq<bv32>)
    requires |m| == 64
    ensures |x| == 16
  {
    seq(16, k requires 0 <= k < 16 => Word(m, 4 * k))
  }

  function Process(v: Regs, m: seq<bv8>): Regs
    requires |m| % 64 == 0
    decreases |m|
  {
    if m == [] then v else Process(Compress(v, Words(m[..64])), m[64..])
  }

  // ---- Sections 3.1, 3.2 and 3.5: padding, length and output ----

  const U32: nat := 0x1_0000_0000
  const U64: nat := 0x1_0000_0000_0000_0000

  function NatBytes(n: nat): (r: seq<bv8>)
    requires n < U32
    ensures |r| == 4
  {
    [(n % 256) as bv8, (n / 0x100 % 256) as bv8, (n / 0x1_0000 % 256) as bv8, (n / 0x100_0000 % 256) as bv8]
  }

  function Zeros(n: nat): (r: seq<bv8>)
    ensures |r| == n && forall i :: 0 <= i < n ==> r[i] == 0
  {
    seq(n, _ => 0)
  }

  /** The number of zero bytes after 0x80 that leaves room for the length in a whole number of blocks. */
  function ZeroCount(n: nat): nat { if n % 64 < 56 then 55 - n % 64 else 119 - n % 64 }

  /** 64-bit length in bits, low-order word first. */
  function LengthField(n: nat): (r: seq<bv8>)
    ensures |r| == 8
  {
    NatBytes(8 * n % U64 % U32) + NatBytes(8 * n % U64 / U32)
  }

  function Tail(n: nat): (r: seq<bv8>)
    ensures |r| == 9 + ZeroCount(n)
  {
    [0x80] + Zeros(ZeroCount(n)) + LengthField(n)
  }

  function Padded(m: seq<bv8>): (r: seq<bv8>)
    ensures |r| % 64 == 0
  {
    PadLength(|m|);
    m + Tail(|m|)
  }

  lemma PadLength(n: nat)
    ensures (n + (9 + ZeroCount(n))) % 64 == 0
  {
    var q, r := n / 64, n % 64;
    assert n + 9 + ZeroCount(n) == if r < 56 then 64 * (q + 1) else 64 * (q + 2);
  }

  function WordBytes(w: bv32): (r: seq<bv8>)
    ensures |r| == 4
  {
    [(w & 0xff) as bv8, ((w >> 8) & 0xff) as bv8, ((w >> 16) & 0xff) as bv8, ((w >> 24) & 0xff) as bv8]
  }

  function Output(v: Regs): (r: seq<bv8>)
    ensures |r| == 16
  {
    WordBytes(v.a) + WordBytes(v.b) + WordBytes(v.c) + WordBytes(v.d)
  }

  /** The message digest. */
  function Digest(m: seq<bv8>): (r: seq<bv8>)
    ensures |r| == 16
  {
    Output(Process(INIT, Padded(m)))
  }

  lemma {:induction false} ProcessConcat(v: Regs, a: seq<bv8>, b: seq<bv8>)
    requires |a| % 64 == 0 && |b| % 64 == 0
    ensures Process(v, a + b) == Process(Process(v, a), b)
    decreases |a|
  {
    hide Compress, Words;
    if a == [] {
      assert a + b == b;
    } else {
      assert (a + b)[..64] == a[..64] && (a + b)[64..] == a[64..] + b;
      ProcessConcat(Compress(v, Words(a[..64])), a[64..], b);
    }
  }

  // ---- The round loops of the source ----

  function FF(b: bv32, c: bv32, d: bv32): bv32 { d ^ (b & (c ^ d)) }
  function FG(b: bv32, c: bv32, d: bv32): bv32 { FF(d, b, c) }
  function FH(b: bv32, c: bv32, d: bv32): bv32 { b ^ c ^ d }
  function FI(b: bv32, c: bv32, d: bv32): bv32 { c ^ (b | !d) }

  const ORDER_1: seq<nat> := [0, 1, 2, 3, 4, 5, 6, 7, 8, 9, 10, 11, 12, 13, 14, 15]
  const ORDER_2: seq<nat> := [1, 6, 11, 0, 5, 10, 15, 4, 9, 14, 3, 8, 13, 2, 7, 12]
  const ORDER_3: seq<nat> := [5, 8, 11, 14, 1, 4, 7, 10, 13, 0, 3, 6, 9, 12, 15, 2]
  const ORDER_4: seq<nat> := [0, 7, 14, 5, 12, 3, 10, 1, 8, 15, 6, 13, 4, 11, 2, 9]

  const TURNS_1: seq<bv6> := [7, 12, 17, 22]
  const TURNS_2: seq<bv6> := [5, 9, 14, 20]
  const TURNS_3: seq<bv6> := [4, 11, 16, 23]
  const TURNS_4: seq<bv6> := [6, 10, 15, 21]

  // The constants of the source, in its own notation.

  const C_1: seq<bv32> := [
    0xd76aa478, 0xe8c7b756, 0x242070db, 0xc1bdceee, 0xf57c0faf, 0x4787c62a, 0xa8304613, 0xfd469501,
    0x698098d8, 0x8b44f7af, 0xffff5bb1, 0x895cd7be, 0x6b901122, 0xfd987193, 0xa679438e, 0x49b40821
  ]

  const C_2: seq<bv32> := [
    0xf61e2562, 0xc040b340, 0x265e5a51, 0xe9b6c7aa, 0xd62f105d, 0x02441453, 0xd8a1e681, 0xe7d3fbc8,
    0x21e1cde6, 0xc33707d6, 0xf4d50d87, 0x455a14ed, 0xa9e3e905, 0xfcefa3f8, 0x676f02d9, 0x8d2a4c8a
  ]

  const C_3: seq<bv32> := [
    0xfffa3942, 0x8771f681, 0x6d9d6122, 0xfde5380c, 0xa4beea44, 0x4bdecfa9, 0xf6bb4b60, 0xbebfbc70,
    0x289b7ec6, 0xeaa127fa, 0xd4ef3085, 0x04881d05, 0xd9d4d039, 0xe6db99e5, 0x1fa27cf8, 0xc4ac5665
  ]

  const C_4: seq<bv32> := [
    0xf4292244, 0x432aff97, 0xab9423a7, 0xfc93a039, 0x655b59c3, 0x8f0ccc92, 0xffeff47d, 0x85845dd1,
    0x6fa87e4f, 0xfe2ce6e0, 0xa3014314, 0x4e0811a1, 0xf7537e82, 0xbd3af235, 0x2ad7d2bb, 0xeb86d391
  ]

  /** The tables hold the same numbers. */
  lemma ConstantsAgree(i: nat)
    requires i < 16
    ensures C_1[i] == Sine(i) && C_2[i] == Sine(16 + i) && C_3[i] == Sine(32 + i) && C_4[i] == Sine(48 + i)
  {
    assert C_1 == SINES_1;
    assert C_2 == SINES_2;
    assert C_3 == SINES_3;
    assert C_4 == SINES_4;
  }

  /** What the source's variables A, B, C, D hold after `i` operations: the registers, one place further each time. */
  function Shifted(v: Regs, i: nat): Regs {
    if i % 4 == 0 then v
    else if i % 4 == 1 then Regs(v.d, v.a, v.b, v.c)
    else if i % 4 == 2 then Regs(v.c, v.d, v.a, v.b)
    else Regs(v.b, v.c, v.d, v.a)
  }

  lemma FirstRound(b: bv32, c: bv32, d: bv32)
    ensures FF(b, c, d) == F(b, c, d)
  {
    SelectByFirst(b, c, d);
  }

  lemma SelectByFirst(b: bv32, c: bv32, d: bv32)
    ensures FF(b, c, d) == (b & c) | (!b & d)
  {
  }

  lemma SecondRound(b: bv32, c: bv32, d: bv32)
    ensures FG(b, c, d) == G(b, c, d)
  {
    SelectByLast(b, c, d);
  }

  lemma SelectByLast(b: bv32, c: bv32, d: bv32)
    ensures FF(d, b, c) == (b & d) | (c & !d)
  {
  }

  /** The cheaper forms of the round functions compute those of the RFC. */
  lemma RoundFunctions(b: bv32, c: bv32, d: bv32)
    ensures FF(b, c, d) == F(b, c, d) && FG(b, c, d) == G(b, c, d) && FH(b, c, d) == H(b, c, d)
    ensures FI(b, c, d) == I(b, c, d)
  {
    hide F, G, FF, FG;
    FirstRound(b, c, d);
    SecondRound(b, c, d);
  }

  /** The tables of the source are the word orders and rotations of the four rounds. */
  lemma OrdersAgree(i: nat)
    requires i < 16
    ensures ORDER_1[i] == WordIndex(i) && ORDER_2[i] == WordIndex(16 + i)
    ensures ORDER_3[i] == WordIndex(32 + i) && ORDER_4[i] == WordIndex(48 + i)
  {
    hide WordIndex;
    Orders12();
    Orders34();
  }

  lemma Orders12()
    ensures forall i :: 0 <= i < 16 ==> ORDER_1[i] == WordIndex(i)
    ensures forall i :: 0 <= i < 16 ==> ORDER_2[i] == WordIndex(16 + i)
  {
  }

  lemma Orders34()
    ensures forall i :: 0 <= i < 16 ==> ORDER_3[i] == WordIndex(32 + i)
    ensures forall i :: 0 <= i < 16 ==> ORDER_4[i] == WordIndex(48 + i)
  {
  }

  lemma TurnsAgree(i: nat)
    requires i < 16
    ensures TURNS_1[i % 4] == Turn(i) && TURNS_2[i % 4] == Turn(16 + i)
    ensures TURNS_3[i % 4] == Turn(32 + i) && TURNS_4[i % 4] == Turn(48 + i)
  {
  }

  /** One pass through a round loop: the variables move one place, the new value goes to B. */
  function LoopStep(u: Regs, mix: bv32, word: bv32, sine: bv32, turn: bv6): Regs
    requires turn <= 32
  {
    Regs(u.d, Turned(u.a, mix, word, sine, turn, u.b), u.b, u.c)
  }

  lemma LoopStepIsOperation(v: Regs, x: seq<bv32>, n: nat)
    requires n < 64 && |x| == 16
    ensures var u := Shifted(v, n);
            LoopStep(u, Mix(n, u.b, u.c, u.d), x[WordIndex(n)], Sine(n), Turn(n)) == Shifted(Operation(v, x, n), n + 1)
  {
    hide Mix, WordIndex, Turn, Turned, Sine;
    if n % 4 == 0 {
      assert (n + 1) % 4 == 1;
    } else if n % 4 == 1 {
      assert (n + 1) % 4 == 2;
    } else if n % 4 == 2 {
      assert (n + 1) % 4 == 3;
    } else {
      assert (n + 1) % 4 == 0;
    }
  }

  /** The mixing function of each round loop is that of the RFC. */
  lemma MixOfRound(i: nat, b: bv32, c: bv32, d: bv32)
    requires i < 64
    ensures Mix(i, b, c, d) ==
            if i < 16 then FF(b, c, d) else if i < 32 then FG(b, c, d) else if i < 48 then FH(b, c, d) else FI(b, c, d)
  {
    hide F, G, H, I, FF, FG, FH, FI;
    RoundFunctions(b, c, d);
  }

  // The four round loops on one block.

  method Round1(v: Regs, x: seq<bv32>, before: Regs) returns (u: Regs)
    requires |x| == 16 && before == Shifted(Operations(v, x, 0), 0)
    ensures u == Shifted(Operations(v, x, 16), 16)
  {
    hide Shifted, Operation, Turned, Sine, Turn, WordIndex, Mix, F, G, H, I, FF, FG, FH, FI;
    u := before;
    for i := 0 to 16
      invariant u == Shifted(Operations(v, x, i), i)
    {
      OrdersAgree(i);
      TurnsAgree(i);
      ConstantsAgree(i);
      MixOfRound(i, u.b, u.c, u.d);
      LoopStepIsOperation(Operations(v, x, i), x, i);
      u := LoopStep(u, FF(u.b, u.c, u.d), x[ORDER_1[i]], C_1[i], TURNS_1[i % 4]);
    }
  }

  method Round2(v: Regs, x: seq<bv32>, before: Regs) returns (u: Regs)
    requires |x| == 16 && before == Shifted(Operations(v, x, 16), 16)
    ensures u == Shifted(Operations(v, x, 32), 32)
  {
    hide Shifted, Operation, Turned, Sine, Turn, WordIndex, Mix, F, G, H, I, FF, FG, FH, FI;
    u := before;
    for i := 0 to 16
      invariant u == Shifted(Operations(v, x, 16 + i), 16 + i)
    {
      OrdersAgree(i);
      TurnsAgree(i);
      ConstantsAgree(i);
      MixOfRound(16 + i, u.b, u.c, u.d);
      LoopStepIsOperation(Operations(v, x, 16 + i), x, 16 + i);
      u := LoopStep(u, FG(u.b, u.c, u.d), x[ORDER_2[i]], C_2[i], TURNS_2[i % 4]);
    }
  }

  method Round3(v: Regs, x: seq<bv32>, before: Regs) returns (u: Regs)
    requires |x| == 16 && before == Shifted(Operations(v, x, 32), 32)
    ensures u == Shifted(Operations(v, x, 48), 48)
  {
    hide Shifted, Operation, Turned, Sine, Turn, WordIndex, Mix, F, G, H, I, FF, FG, FH, FI;
    u := before;
    for i := 0 to 16
      invariant u == Shifted(Operations(v, x, 32 + i), 32 + i)
    {
      OrdersAgree(i);
      TurnsAgree(i);
      ConstantsAgree(i);
      MixOfRound(32 + i, u.b, u.c, u.d);
      LoopStepIsOperation(Operations(v, x, 32 + i), x, 32 + i);
      u := LoopStep(u, FH(u.b, u.c, u.d), x[ORDER_3[i]], C_3[i], TURNS_3[i % 4]);
    }
  }

  method Round4(v: Regs, x: seq<bv32>, before: Regs) returns (u: Regs)
    requires |x| == 16 && before == Shifted(Operations(v, x, 48), 48)
    ensures u == Shifted(Operations(v, x, 64), 64)
  {
    hide Shifted, Operation, Turned, Sine, Turn, WordIndex, Mix, F, G, H, I, FF, FG, FH, FI;
    u := before;
    for i := 0 to 16
      invariant u == Shifted(Operations(v, x, 48 + i), 48 + i)
    {
      OrdersAgree(i);
      TurnsAgree(i);
      ConstantsAgree(i);
      MixOfRound(48 + i, u.b, u.c, u.d);
      LoopStepIsOperation(Operations(v, x, 48 + i), x, 48 + i);
      u := LoopStep(u, FI(u.b, u.c, u.d), x[ORDER_4[i]], C_4[i], TURNS_4[i % 4]);
    }
  }

  /** One block: the 64 operations of the RFC. */
  method Scramble(v: Regs, x: seq<bv32>) returns (u: Regs)
    requires |x| == 16
    ensures u == Operations(v, x, 64)
  {
    hide Shifted, Operations;
    NothingDone(v, x);
    u := Round1(v, x, v);
    u := Round2(v, x, u);
    u := Round3(v, x, u);
    u := Round4(v, x, u);
    NothingShifted(Operations(v, x, 64));
  }

  lemma NothingDone(v: Regs, x: seq<bv32>)
    requires |x| == 16
    ensures Shifted(Operations(v, x, 0), 0) == v
  {
  }

  lemma NothingShifted(v: Regs)
    ensures Shifted(v, 0) == v && Shifted(v, 64) == v
  {
  }
}
