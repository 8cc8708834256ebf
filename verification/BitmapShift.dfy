/** Shifts of whole bitmaps by any distance, also in place. */
module BitmapShift {
  import opened Word
  import opened Bitmap

  /** Usable bit `k`; bits past the end read as zero. */
  predicate Get(b: seq<word>, bits: nat, k: nat)
    requires bits <= 64 * |b|
  {
    k < bits && Test(b, k)
  }

  /** Word `i` without the overhead bits of the last word. */
  function Usable(b: seq<word>, bits: nat, i: nat): word
    requires i < Longs(bits) <= |b|
  {
    if i == Longs(bits) - 1 then And(b[i], LastMask(bits)) else b[i]
  }

  lemma BitUsable(b: seq<word>, bits: nat, i: nat, j: nat)
    requires 1 <= bits <= 64 * |b| && i < Longs(bits) && j < 64
    ensures Longs(bits) <= |b| && (Bit(Usable(b, bits, i), j) <==> Get(b, bits, 64 * i + j))
  {
    hide Bit, And, Or, Xor, Not, LastMask, Test, Longs;
    WholeWords(b, bits, i);
    TestAt(b, i, j);
    if i == Longs(bits) - 1 {
      LastMaskIs(bits);
      BitBitwise(b[i], LastMask(bits), j);
    }
  }

  lemma WholeWords(b: seq<word>, bits: nat, i: nat)
    requires 1 <= bits <= 64 * |b| && i < Longs(bits)
    ensures Longs(bits) <= |b| && (i < Longs(bits) - 1 ==> 64 * i + 64 <= bits)
  {
  }

  /** The low bits of `high` moved up by `s`, above the top `s` bits of `low`. */
  function Joined(high: word, low: word, s: nat): word
    requires 0 < s < 64
  {
    Or(Shl(high, s), Shr(low, 64 - s))
  }

  lemma BitJoined(high: word, low: word, s: nat, j: nat)
    requires 0 < s < 64 && j < 64
    ensures Bit(Joined(high, low, s), j) <==> if s <= j then Bit(high, j - s) else Bit(low, 64 + j - s)
  {
    hide Bit, And, Or, Xor, Not, Shl, Shr;
    BitBitwise(Shl(high, s), Shr(low, 64 - s), j);
    BitShl(high, s, j);
    BitShr(low, 64 - s, j);
  }

  // ---- Towards the least significant bit ----

  /** Word `m` of the source moved right by `n`. */
  predicate RightWord(w: word, b: seq<word>, bits: nat, n: nat, m: nat)
    requires bits <= 64 * |b|
  {
    forall j :: 0 <= j < 64 ==> (Bit(w, j) <==> Get(b, bits, 64 * m + j + n))
  }

  lemma RightAligned(b: seq<word>, bits: nat, n: nat, m: nat)
    requires 1 <= bits <= 64 * |b| && n % 64 == 0 && m + n / 64 < Longs(bits)
    ensures RightWord(Usable(b, bits, m + n / 64), b, bits, n, m)
  {
    hide Bit, Usable, Get;
    var i := m + n / 64;
    forall j | 0 <= j < 64 ensures Bit(Usable(b, bits, i), j) <==> Get(b, bits, 64 * m + j + n) {
      BitUsable(b, bits, i, j);
      assert 64 * i + j == 64 * m + j + n;
    }
  }

  lemma RightMixed(b: seq<word>, bits: nat, n: nat, m: nat)
    requires 1 <= bits <= 64 * |b| && n % 64 != 0 && m + n / 64 + 1 < Longs(bits)
    ensures RightWord(Joined(Usable(b, bits, m + n / 64 + 1), Usable(b, bits, m + n / 64), 64 - n % 64), b, bits, n, m)
  {
    hide Bit, Usable, Get, Joined;
    var i, s := m + n / 64, n % 64;
    var high, low := Usable(b, bits, i + 1), Usable(b, bits, i);
    var w := Joined(high, low, 64 - s);
    forall j | 0 <= j < 64 ensures Bit(w, j) <==> Get(b, bits, 64 * m + j + n) {
      BitJoined(high, low, 64 - s, j);
      assert 64 * m + j + n == 64 * i + j + s;
      if j + s < 64 { BitUsable(b, bits, i, j + s); } else { BitUsable(b, bits, i + 1, j + s - 64); }
    }
  }

  lemma RightLast(b: seq<word>, bits: nat, n: nat, m: nat)
    requires 1 <= bits <= 64 * |b| && n % 64 != 0 && m + n / 64 + 1 == Longs(bits)
    ensures RightWord(Shr(Usable(b, bits, m + n / 64), n % 64), b, bits, n, m)
  {
    hide Bit, Usable, Get, Shr;
    var i, s := m + n / 64, n % 64;
    var low := Usable(b, bits, i);
    forall j | 0 <= j < 64 ensures Bit(Shr(low, s), j) <==> Get(b, bits, 64 * m + j + n) {
      BitShr(low, s, j);
      assert 64 * m + j + n == 64 * i + j + s;
      if j + s < 64 { BitUsable(b, bits, i, j + s); } else { PastTheEnd(b, bits, 64 * i + j + s); }
    }
  }

  lemma PastTheEnd(b: seq<word>, bits: nat, k: nat)
    requires bits <= 64 * |b| && k >= 64 * Longs(bits)
    ensures !Get(b, bits, k)
  {
  }

  lemma RightZero(b: seq<word>, bits: nat, n: nat, m: nat)
    requires bits <= 64 * |b| && (n > bits || m + n / 64 >= Longs(bits))
    ensures RightWord(0, b, bits, n, m)
  {
    hide Bit;
    forall j | 0 <= j < 64 ensures !Bit(0, j) { BitConstants(j); }
  }

  /**
   * The bitmap after a right shift: zeros fill in from above, overhead bits included; words past the last
   * keep their value.
   */
  predicate ShiftedRight(now: seq<word>, was: seq<word>, src: seq<word>, bits: nat, n: nat)
    requires bits <= 64 * |src|
  {
    && |now| == |was| && Longs(bits) <= |now|
    && (forall k :: 0 <= k < 64 * Longs(bits) ==> (Test(now, k) <==> Get(src, bits, k + n)))
    && now[Longs(bits)..] == was[Longs(bits)..]
  }

  lemma ShiftedRightByWords(now: seq<word>, was: seq<word>, src: seq<word>, bits: nat, n: nat)
    requires bits <= 64 * |src| && |now| == |was| && Longs(bits) <= |now|
    requires forall m :: 0 <= m < Longs(bits) ==> RightWord(now[m], src, bits, n, m)
    requires forall m :: Longs(bits) <= m < |now| ==> now[m] == was[m]
    ensures ShiftedRight(now, was, src, bits, n)
  {
    hide Bit, Get;
    forall k | 0 <= k < 64 * Longs(bits) ensures Test(now, k) <==> Get(src, bits, k + n) {
      assert k == 64 * (k / 64) + k % 64 && RightWord(now[k / 64], src, bits, n, k / 64);
    }
  }

  /** bitmap_zero. */
  method Zero(bitmap: array<word>, bits: nat)
    requires Longs(bits) <= bitmap.Length
    modifies bitmap
    ensures forall m :: 0 <= m < bitmap.Length ==> bitmap[m] == if m < Longs(bits) then 0 else old(bitmap[m])
  {
    Memset(bitmap, 0, Longs(bits));
  }

  method Memset(bitmap: array<word>, from: nat, count: nat)
    requires from + count <= bitmap.Length
    modifies bitmap
    ensures forall m :: 0 <= m < bitmap.Length ==> bitmap[m] == if from <= m < from + count then 0 else old(bitmap[m])
  {
    var i := from;
    while i < from + count
      invariant from <= i <= from + count
      invariant forall m :: 0 <= m < bitmap.Length ==> bitmap[m] == if from <= m < i then 0 else old(bitmap[m])
    {
      bitmap[i] := 0;
      i := i + 1;
    }
  }

  /** The index of the last word a right shift by n <= bits stores before it clears the rest. */
  function LastStore(n: nat, bits: nat): int {
    Longs(bits) - 1 - n / 64
  }

  /** That store is inside the bitmap unless the shift is by exactly `bits` and `bits` fills its words. */
  lemma StoreInRange(n: nat, bits: nat)
    requires 1 <= bits && n <= bits
    ensures 0 <= LastStore(n, bits) < Longs(bits) <==> !(n == bits && bits % 64 == 0)
  {
  }

  /**
   * bitmap_shift_right; `bitmap` and `src` may be the same array.
   * It fails, by a store in front of the bitmap, exactly when n == bits and bits is a multiple of the word size.
   */
  method ShiftRight(bitmap: array<word>, src: array<word>, n: nat, bits: nat) returns (ok: bool)
    requires 1 <= bits && Longs(bits) <= bitmap.Length && Longs(bits) <= src.Length
    modifies bitmap
    ensures ok <==> !(n == bits && bits % 64 == 0)
    ensures ok ==> ShiftedRight(bitmap[..], old(bitmap[..]), old(src[..]), bits, n)
  {
    hide RightWord, ShiftedRight, Usable, LastMask, Or, And, Shl, Shr;
    var l := Longs(bits);
    var nWords := n / 64;
    var nBits := n % 64;
    ghost var was, s := bitmap[..], src[..];
    if n > bits {
      Zero(bitmap, bits);
      forall m | 0 <= m < l ensures RightWord(bitmap[m], s, bits, n, m) { RightZero(s, bits, n, m); }
      ShiftedRightByWords(bitmap[..], was, s, bits, n);
      return true;
    }
    StoreInRange(n, bits);
    if nBits == 0 {
      if l - 1 - nWords < 0 {
        return false;
      }
      ShiftRightWords(bitmap, src, n, bits);
    } else {
      ShiftRightBits(bitmap, src, n, bits);
    }
    if nWords != 0 {
      Memset(bitmap, l - nWords, nWords);
    }
    forall m | 0 <= m < l ensures RightWord(bitmap[m], s, bits, n, m) {
      if m >= l - nWords { RightZero(s, bits, n, m); }
    }
    ShiftedRightByWords(bitmap[..], was, s, bits, n);
    ok := true;
  }

  /** The branch for whole words. */
  method ShiftRightWords(bitmap: array<word>, src: array<word>, n: nat, bits: nat)
    requires 1 <= bits && Longs(bits) <= bitmap.Length && Longs(bits) <= src.Length
    requires n % 64 == 0 && n / 64 < Longs(bits)
    modifies bitmap
    ensures forall m :: 0 <= m < Longs(bits) - n / 64 ==> RightWord(bitmap[m], old(src[..]), bits, n, m)
    ensures forall m :: Longs(bits) - n / 64 <= m < bitmap.Length ==> bitmap[m] == old(bitmap[m])
  {
    hide RightWord, LastMask, And;
    var l, nWords := Longs(bits), n / 64;
    ghost var was, s := bitmap[..], src[..];
    var i, srcI := 0, nWords;
    while i + nWords < l - 1
      invariant 0 <= i <= l - 1 - nWords && srcI == i + nWords
      invariant forall m :: 0 <= m < i ==> RightWord(bitmap[m], s, bits, n, m)
      invariant forall m :: i <= m < bitmap.Length ==> bitmap[m] == was[m]
      invariant forall m :: i <= m < src.Length ==> src[m] == s[m]
    {
      RightAligned(s, bits, n, i);
      bitmap[i] := src[srcI];
      i, srcI := i + 1, srcI + 1;
    }
    i := l - 1 - nWords;
    srcI := l - 1;
    RightAligned(s, bits, n, i);
    bitmap[i] := And(src[srcI], LastMask(bits));
  }

  /** The branch that joins two neighbouring words. */
  method ShiftRightBits(bitmap: array<word>, src: array<word>, n: nat, bits: nat)
    requires 1 <= bits && Longs(bits) <= bitmap.Length && Longs(bits) <= src.Length
    requires n % 64 != 0 && n / 64 < Longs(bits)
    modifies bitmap
    ensures forall m :: 0 <= m < Longs(bits) - n / 64 ==> RightWord(bitmap[m], old(src[..]), bits, n, m)
    ensures forall m :: Longs(bits) - n / 64 <= m < bitmap.Length ==> bitmap[m] == old(bitmap[m])
  {
    hide RightWord, LastMask, And, Joined, Shr;
    var l, nWords, nBits := Longs(bits), n / 64, n % 64;
    ghost var was, s := bitmap[..], src[..];
    var i, srcI := 0, nWords;
    while srcI < l - 1
      invariant 0 <= i <= l - 1 - nWords && srcI == i + nWords
      invariant forall m :: 0 <= m < i ==> RightWord(bitmap[m], s, bits, n, m)
      invariant forall m :: i <= m < bitmap.Length ==> bitmap[m] == was[m]
      invariant forall m :: i <= m < src.Length ==> src[m] == s[m]
    {
      var low := src[srcI];
      var high := src[srcI + 1];
      if srcI + 1 == l - 1 {
        high := And(high, LastMask(bits));
      }
      RightMixed(s, bits, n, i);
      bitmap[i] := Joined(high, low, 64 - nBits);
      i, srcI := i + 1, srcI + 1;
    }
    RightLast(s, bits, n, i);
    var low := And(src[l - 1], LastMask(bits));
    bitmap[l - nWords - 1] := Shr(low, nBits);
  }

  // ---- Towards the most significant bit ----

  /** Word `m` of the source moved left by `n`. */
  predicate LeftWord(w: word, b: seq<word>, bits: nat, n: nat, m: nat)
    requires bits <= 64 * |b|
  {
    forall j :: 0 <= j < 64 ==> (Bit(w, j) <==> n <= 64 * m + j && Get(b, bits, 64 * m + j - n))
  }

  lemma LeftAligned(b: seq<word>, bits: nat, n: nat, i: nat)
    requires 1 <= bits <= 64 * |b| && n % 64 == 0 && i < Longs(bits)
    ensures LeftWord(Usable(b, bits, i), b, bits, n, i + n / 64)
  {
    hide Bit, Usable, Get;
    var m := i + n / 64;
    forall j | 0 <= j < 64 ensures Bit(Usable(b, bits, i), j) <==> n <= 64 * m + j && Get(b, bits, 64 * m + j - n) {
      BitUsable(b, bits, i, j);
      assert 64 * i + j == 64 * m + j - n;
    }
  }

  lemma LeftMixed(b: seq<word>, bits: nat, n: nat, i: nat)
    requires 1 <= bits <= 64 * |b| && n % 64 != 0 && 0 < i < Longs(bits)
    ensures LeftWord(Joined(Usable(b, bits, i), Usable(b, bits, i - 1), n % 64), b, bits, n, i + n / 64)
  {
    hide Bit, Usable, Get, Joined;
    var m, s := i + n / 64, n % 64;
    var high, low := Usable(b, bits, i), Usable(b, bits, i - 1);
    var w := Joined(high, low, s);
    forall j | 0 <= j < 64 ensures Bit(w, j) <==> n <= 64 * m + j && Get(b, bits, 64 * m + j - n) {
      BitJoined(high, low, s, j);
      assert 64 * m + j - n == 64 * i + j - s;
      if s <= j { BitUsable(b, bits, i, j - s); } else { BitUsable(b, bits, i - 1, 64 + j - s); }
    }
  }

  lemma LeftFirst(b: seq<word>, bits: nat, n: nat)
    requires 1 <= bits <= 64 * |b| && n % 64 != 0
    ensures LeftWord(Shl(Usable(b, bits, 0), n % 64), b, bits, n, n / 64)
  {
    hide Bit, Usable, Get, Shl;
    var m, s := n / 64, n % 64;
    var high := Usable(b, bits, 0);
    forall j | 0 <= j < 64 ensures Bit(Shl(high, s), j) <==> n <= 64 * m + j && Get(b, bits, 64 * m + j - n) {
      BitShl(high, s, j);
      assert 64 * m + j - n == j - s;
      if s <= j { BitUsable(b, bits, 0, j - s); }
    }
  }

  lemma LeftZero(b: seq<word>, bits: nat, n: nat, m: nat)
    requires bits <= 64 * |b| && m < n / 64
    ensures LeftWord(0, b, bits, n, m)
  {
    hide Bit;
    forall j | 0 <= j < 64 ensures !Bit(0, j) { BitConstants(j); }
  }

  /** The bitmap after a left shift: zeros fill in from below; words past the last keep their value. */
  predicate ShiftedLeft(now: seq<word>, was: seq<word>, src: seq<word>, bits: nat, n: nat)
    requires bits <= 64 * |src|
  {
    && |now| == |was| && Longs(bits) <= |now|
    && (forall k :: 0 <= k < 64 * Longs(bits) ==> (Test(now, k) <==> n < bits && n <= k && Get(src, bits, k - n)))
    && now[Longs(bits)..] == was[Longs(bits)..]
  }

  lemma ShiftedLeftByWords(now: seq<word>, was: seq<word>, src: seq<word>, bits: nat, n: nat)
    requires bits <= 64 * |src| && |now| == |was| && Longs(bits) <= |now| && n < bits
    requires forall m :: 0 <= m < Longs(bits) ==> LeftWord(now[m], src, bits, n, m)
    requires forall m :: Longs(bits) <= m < |now| ==> now[m] == was[m]
    ensures ShiftedLeft(now, was, src, bits, n)
  {
    hide Bit, Get;
    forall k | 0 <= k < 64 * Longs(bits) ensures Test(now, k) <==> n <= k && Get(src, bits, k - n) {
      assert k == 64 * (k / 64) + k % 64 && LeftWord(now[k / 64], src, bits, n, k / 64);
    }
  }

  lemma ShiftedOut(now: seq<word>, was: seq<word>, src: seq<word>, bits: nat, n: nat)
    requires bits <= 64 * |src| && |now| == |was| && Longs(bits) <= |now| && n >= bits
    requires forall m :: 0 <= m < |now| ==> now[m] == if m < Longs(bits) then 0 else was[m]
    ensures ShiftedLeft(now, was, src, bits, n)
  {
    hide Bit, Get;
    forall k | 0 <= k < 64 * Longs(bits) ensures !Test(now, k) {
      assert k / 64 < Longs(bits);
      BitConstants(k % 64);
    }
  }

  /** bitmap_shift_left; `bitmap` and `src` may be the same array. */
  method ShiftLeft(bitmap: array<word>, src: array<word>, n: nat, bits: nat)
    requires 1 <= bits && Longs(bits) <= bitmap.Length && Longs(bits) <= src.Length
    modifies bitmap
    ensures ShiftedLeft(bitmap[..], old(bitmap[..]), old(src[..]), bits, n)
  {
    hide LeftWord, ShiftedLeft;
    ghost var was, s := bitmap[..], src[..];
    var nWords := n / 64;
    var nBits := n % 64;
    if n >= bits {
      Zero(bitmap, bits);
      ShiftedOut(bitmap[..], was, s, bits, n);
      return;
    }
    if nBits == 0 {
      ShiftLeftWords(bitmap, src, n, bits);
    } else {
      ShiftLeftBits(bitmap, src, n, bits);
    }
    if nWords != 0 {
      Memset(bitmap, 0, nWords);
    }
    forall m | 0 <= m < Longs(bits) ensures LeftWord(bitmap[m], s, bits, n, m) {
      if m < nWords { LeftZero(s, bits, n, m); }
    }
    ShiftedLeftByWords(bitmap[..], was, s, bits, n);
  }

  method ShiftLeftWords(bitmap: array<word>, src: array<word>, n: nat, bits: nat)
    requires 1 <= bits && Longs(bits) <= bitmap.Length && Longs(bits) <= src.Length && n < bits && n % 64 == 0
    modifies bitmap
    ensures forall m :: n / 64 <= m < Longs(bits) ==> LeftWord(bitmap[m], old(src[..]), bits, n, m)
    ensures forall m :: Longs(bits) <= m < bitmap.Length ==> bitmap[m] == old(bitmap[m])
  {
    hide LeftWord, LastMask, And;
    var l, nWords := Longs(bits), n / 64;
    ghost var was, s := bitmap[..], src[..];
    var i := l - nWords - 1;
    while i > 0
      invariant 0 <= i <= l - nWords - 1
      invariant forall m :: i + nWords < m < l ==> LeftWord(bitmap[m], s, bits, n, m)
      invariant forall m :: l <= m < bitmap.Length ==> bitmap[m] == was[m]
      invariant forall m :: 0 <= m <= i ==> src[m] == s[m]
    {
      var high := src[i];
      if i == l - 1 {
        high := And(high, LastMask(bits));
      }
      LeftAligned(s, bits, n, i);
      bitmap[i + nWords] := high;
      i := i - 1;
    }
    var high := src[0];
    if l - 1 == 0 {
      high := And(high, LastMask(bits));
    }
    LeftAligned(s, bits, n, 0);
    bitmap[nWords] := high;
  }

  method ShiftLeftBits(bitmap: array<word>, src: array<word>, n: nat, bits: nat)
    requires 1 <= bits && Longs(bits) <= bitmap.Length && Longs(bits) <= src.Length && n < bits && n % 64 != 0
    modifies bitmap
    ensures forall m :: n / 64 <= m < Longs(bits) ==> LeftWord(bitmap[m], old(src[..]), bits, n, m)
    ensures forall m :: Longs(bits) <= m < bitmap.Length ==> bitmap[m] == old(bitmap[m])
  {
    hide LeftWord, LastMask, And, Joined, Shl;
    var l, nWords, nBits := Longs(bits), n / 64, n % 64;
    ghost var was, s := bitmap[..], src[..];
    var i := l - nWords - 1;
    while i > 0
      invariant 0 <= i <= l - nWords - 1
      invariant forall m :: i + nWords < m < l ==> LeftWord(bitmap[m], s, bits, n, m)
      invariant forall m :: l <= m < bitmap.Length ==> bitmap[m] == was[m]
      invariant forall m :: 0 <= m <= i ==> src[m] == s[m]
    {
      var low := src[i - 1];
      var high := src[i];
      if i == l - 1 {
        high := And(high, LastMask(bits));
      }
      LeftMixed(s, bits, n, i);
      bitmap[i + nWords] := Joined(high, low, nBits);
      i := i - 1;
    }
    var high := src[0];
    if l - 1 == 0 {
      high := And(high, LastMask(bits));
    }
    LeftFirst(s, bits, n);
    bitmap[nWords] := Shl(high, nBits);
  }

  // ---- Both ways ----

  /** Shifting left and back in place keeps exactly the bits that were not shifted out. */
  method ThereAndBack(bitmap: array<word>, n: nat, bits: nat) returns (ok: bool)
    requires 1 <= bits && Longs(bits) <= bitmap.Length
    modifies bitmap
    ensures ok <==> !(n == bits && bits % 64 == 0)
    ensures ok ==> forall k :: 0 <= k < bits ==> (Test(bitmap[..], k) <==> k + n < bits && Test(old(bitmap[..]), k))
  {
    hide Test;
    ghost var was := bitmap[..];
    ShiftLeft(bitmap, bitmap, n, bits);
    ghost var mid := bitmap[..];
    assert forall k :: 0 <= k < 64 * Longs(bits) ==> (Test(mid, k) <==> n < bits && n <= k && Get(was, bits, k - n));
    ok := ShiftRight(bitmap, bitmap, n, bits);
  }
}
