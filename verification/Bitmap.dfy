/** Bitmaps packed in words: every operation agrees with a plain set of bit numbers. */
module Bitmap {
  import opened Word
  import opened Weight

  /** BITS_TO_LONGS. */
  function Longs(bits: nat): nat { (bits + 63) / 64 }

  /** Bit number `k` of a bitmap. */
  predicate Test(b: seq<word>, k: nat)
    requires k < 64 * |b|
  {
    Bit(b[k / 64], k % 64)
  }

  lemma TestAt(b: seq<word>, i: nat, j: nat)
    requires i < |b| && j < 64
    ensures 64 * i + j < 64 * |b| && (Test(b, 64 * i + j) <==> Bit(b[i], j))
  {
    assert (64 * i + j) / 64 == i && (64 * i + j) % 64 == j;
  }

  lemma Position(b: seq<word>, k: nat)
    requires k < 64 * |b|
    ensures k / 64 < |b| && k == 64 * (k / 64) + k % 64
  {
  }

  // ---- Ranges ----

  /** Word `m` after the bits numbered lo up to hi took the value `v` and no other bit changed. */
  predicate WordRange(now: word, was: word, m: nat, lo: nat, hi: nat, v: bool) {
    forall j :: 0 <= j < 64 ==> (Bit(now, j) <==> if lo <= 64 * m + j < hi then v else Bit(was, j))
  }

  /** The bits of `mask` are those of word `m` numbered lo up to hi. */
  predicate RangeMask(mask: word, m: nat, lo: nat, hi: nat) {
    forall j :: 0 <= j < 64 ==> (Bit(mask, j) <==> lo <= 64 * m + j < hi)
  }

  lemma SetWord(w: word, mask: word, m: nat, lo: nat, hi: nat)
    requires RangeMask(mask, m, lo, hi)
    ensures WordRange(Or(w, mask), w, m, lo, hi, true)
  {
    hide Bit, Or;
    forall j | 0 <= j < 64 ensures Bit(Or(w, mask), j) <==> if lo <= 64 * m + j < hi then true else Bit(w, j) {
      BitBitwise(w, mask, j);
    }
  }

  lemma ClearWord(w: word, mask: word, m: nat, lo: nat, hi: nat)
    requires RangeMask(mask, m, lo, hi)
    ensures WordRange(And(w, Not(mask)), w, m, lo, hi, false)
  {
    hide Bit, And, Not;
    forall j | 0 <= j < 64 ensures Bit(And(w, Not(mask)), j) <==> if lo <= 64 * m + j < hi then false else Bit(w, j) {
      BitBitwise(w, Not(mask), j);
      BitBitwise(mask, mask, j);
    }
  }

  lemma FirstWordMask(start: nat, hi: nat)
    requires 64 * (start / 64) + 64 <= hi
    ensures RangeMask(FirstMask(start), start / 64, start, hi)
  {
    hide Bit;
  }

  lemma MiddleMask(m: nat, lo: nat, hi: nat)
    requires lo <= 64 * m && 64 * m + 64 <= hi
    ensures RangeMask(ONES, m, lo, hi)
  {
    hide Bit;
    forall j | 0 <= j < 64 ensures Bit(ONES, j) { BitConstants(j); }
  }

  /** The mask of the last, incomplete word: what the loop left in `mask`, cut off at `end`. */
  lemma LastWordMask(mask: word, start: nat, end: nat)
    requires start < end && end % 64 != 0
    requires mask == if start / 64 == end / 64 then FirstMask(start) else ONES
    ensures RangeMask(And(mask, LastMask(end)), end / 64, start, end)
  {
    hide Bit, And;
    var m := end / 64;
    forall j | 0 <= j < 64 ensures Bit(And(mask, LastMask(end)), j) <==> start <= 64 * m + j < end {
      BitBitwise(mask, LastMask(end), j);
      BitConstants(j);
    }
  }

  /** The whole bitmap after a range operation. */
  predicate Ranged(now: seq<word>, was: seq<word>, start: nat, end: nat, v: bool) {
    && |now| == |was|
    && (forall k :: 0 <= k < 64 * |was| ==> (Test(now, k) <==> if start <= k < end then v else Test(was, k)))
    && (forall m :: 0 <= m < |was| && (64 * m >= end || 64 * m + 64 <= start) ==> now[m] == was[m])
  }

  lemma RangedByWords(now: seq<word>, was: seq<word>, start: nat, end: nat, v: bool)
    requires |now| == |was|
    requires forall m :: 0 <= m < |was| ==> WordRange(now[m], was[m], m, start, end, v)
    requires forall m :: 0 <= m < |was| && (64 * m >= end || 64 * m + 64 <= start) ==> now[m] == was[m]
    ensures Ranged(now, was, start, end, v)
  {
    hide Bit;
    forall k | 0 <= k < 64 * |was| ensures Test(now, k) <==> if start <= k < end then v else Test(was, k) {
      var m, j := k / 64, k % 64;
      assert k == 64 * m + j;
      assert WordRange(now[m], was[m], m, start, end, v);
    }
  }

  lemma OutsideRange(w: word, m: nat, lo: nat, hi: nat, v: bool)
    requires 64 * m >= hi || 64 * m + 64 <= lo || lo >= hi
    ensures WordRange(w, w, m, lo, hi, v)
  {
  }

  /** bitmap_set. */
  method SetRange(bitmap: array<word>, start: nat, count: nat)
    requires start + count <= 64 * bitmap.Length
    modifies bitmap
    ensures Ranged(bitmap[..], old(bitmap[..]), start, start + count, true)
  {
    hide WordRange, RangeMask, Ranged, Or, And, FirstMask, LastMask;
    var bits := count;
    var end := start + bits;
    var l := end / 64;
    var mask := FirstMask(start);
    var maskBits := 64 - start % 64;
    var i := start / 64;
    ghost var was := bitmap[..];
    while i < l
      invariant start / 64 <= i <= l
      invariant mask == if i == start / 64 then FirstMask(start) else ONES
      invariant bits == end - (if i == start / 64 then start else 64 * i)
      invariant maskBits == 64 * (i + 1) - (if i == start / 64 then start else 64 * i)
      invariant forall m :: start / 64 <= m < i ==> WordRange(bitmap[m], was[m], m, start, end, true)
      invariant forall m :: 0 <= m < bitmap.Length && !(start / 64 <= m < i) ==> bitmap[m] == was[m]
    {
      if i == start / 64 { FirstWordMask(start, end); } else { MiddleMask(i, start, end); }
      SetWord(bitmap[i], mask, i, start, end);
      bitmap[i] := Or(bitmap[i], mask);
      bits := bits - maskBits;
      mask := ONES;
      maskBits := 64;
      i := i + 1;
    }
    if bits != 0 {
      LastWordMask(mask, start, end);
      SetWord(bitmap[l], And(mask, LastMask(end)), l, start, end);
      bitmap[l] := Or(bitmap[l], And(mask, LastMask(end)));
    }
    forall m | 0 <= m < bitmap.Length ensures WordRange(bitmap[m], was[m], m, start, end, true) {
      if !(start / 64 <= m < l) && !(m == l && bits != 0) { OutsideRange(was[m], m, start, end, true); }
    }
    RangedByWords(bitmap[..], was, start, end, true);
  }

  /** bitmap_clear. */
  method ClearRange(bitmap: array<word>, start: nat, count: nat)
    requires start + count <= 64 * bitmap.Length
    modifies bitmap
    ensures Ranged(bitmap[..], old(bitmap[..]), start, start + count, false)
  {
    hide WordRange, RangeMask, Ranged, And, Not, FirstMask, LastMask;
    var bits := count;
    var end := start + bits;
    var l := end / 64;
    var mask := FirstMask(start);
    var maskBits := 64 - start % 64;
    var i := start / 64;
    ghost var was := bitmap[..];
    while i < l
      invariant start / 64 <= i <= l
      invariant mask == if i == start / 64 then FirstMask(start) else ONES
      invariant bits == end - (if i == start / 64 then start else 64 * i)
      invariant maskBits == 64 * (i + 1) - (if i == start / 64 then start else 64 * i)
      invariant forall m :: start / 64 <= m < i ==> WordRange(bitmap[m], was[m], m, start, end, false)
      invariant forall m :: 0 <= m < bitmap.Length && !(start / 64 <= m < i) ==> bitmap[m] == was[m]
    {
      if i == start / 64 { FirstWordMask(start, end); } else { MiddleMask(i, start, end); }
      ClearWord(bitmap[i], mask, i, start, end);
      bitmap[i] := And(bitmap[i], Not(mask));
      bits := bits - maskBits;
      mask := ONES;
      maskBits := 64;
      i := i + 1;
    }
    if bits != 0 {
      LastWordMask(mask, start, end);
      ClearWord(bitmap[l], And(mask, LastMask(end)), l, start, end);
      bitmap[l] := And(bitmap[l], Not(And(mask, LastMask(end))));
    }
    forall m | 0 <= m < bitmap.Length ensures WordRange(bitmap[m], was[m], m, start, end, false) {
      if !(start / 64 <= m < l) && !(m == l && bits != 0) { OutsideRange(was[m], m, start, end, false); }
    }
    RangedByWords(bitmap[..], was, start, end, false);
  }

  // ---- Searching ----

  /** `pos` is the least bit number at or after `start` whose value is `v`, or `bits` when there is none. */
  predicate IsNext(b: seq<word>, bits: nat, start: nat, pos: nat, v: bool)
    requires bits <= 64 * |b|
  {
    && (forall k :: start <= k < pos && k < bits ==> Test(b, k) != v)
    && pos <= bits
    && (pos < bits ==> start <= pos && Test(b, pos) == v)
  }

  /** `t` holds the bits of word `m` that have value `v` and are numbered from `start` on. */
  predicate Candidates(t: word, w: word, m: nat, start: nat, v: bool) {
    forall j :: 0 <= j < 64 ==> (Bit(t, j) <==> start <= 64 * m + j && Bit(w, j) == v)
  }

  lemma FirstCandidates(w: word, start: nat)
    ensures Candidates(And(w, FirstMask(start)), w, start / 64, start, true)
    ensures Candidates(Xor(Or(w, Not(FirstMask(start))), ONES), w, start / 64, start, false)
  {
    hide Bit, And, Or, Not, Xor;
    var mask := FirstMask(start);
    forall j | 0 <= j < 64
      ensures Bit(And(w, mask), j) <==> start <= 64 * (start / 64) + j && Bit(w, j)
      ensures Bit(Xor(Or(w, Not(mask)), ONES), j) <==> start <= 64 * (start / 64) + j && !Bit(w, j)
    {
      BitBitwise(w, mask, j);
      BitBitwise(mask, mask, j);
      BitBitwise(w, Not(mask), j);
      BitBitwise(Or(w, Not(mask)), ONES, j);
      BitConstants(j);
    }
  }

  lemma NextCandidates(w: word, m: nat, start: nat)
    requires start <= 64 * m
    ensures Candidates(w, w, m, start, true) && Candidates(Xor(w, ONES), w, m, start, false)
  {
    hide Bit, Xor;
    forall j | 0 <= j < 64 ensures Bit(Xor(w, ONES), j) <==> !Bit(w, j) {
      BitBitwise(w, ONES, j);
      BitConstants(j);
    }
  }

  /** No bit of value `v` is numbered from `start` up to the end of word `m - 1`. */
  predicate NoneBefore(b: seq<word>, m: nat, start: nat, v: bool)
    requires m <= |b|
  {
    forall k :: start <= k < 64 * m ==> Test(b, k) != v
  }

  lemma NoneInWord(b: seq<word>, t: word, m: nat, start: nat, v: bool)
    requires m < |b| && Candidates(t, b[m], m, start, v) && t == 0 && NoneBefore(b, m, start, v)
    ensures NoneBefore(b, m + 1, start, v)
  {
    hide Bit;
    ZeroIff(t);
    forall k | start <= k < 64 * (m + 1) ensures Test(b, k) != v {
      if 64 * m <= k {
        assert k / 64 == m && k == 64 * m + k % 64;
        assert !Bit(t, k % 64);
      }
    }
  }

  lemma FoundInWord(b: seq<word>, bits: nat, t: word, m: nat, start: nat, v: bool, f: nat)
    requires bits <= 64 * |b| && m < |b| && Candidates(t, b[m], m, start, v) && NoneBefore(b, m, start, v)
    requires 1 <= f <= 64 && Bit(t, f - 1) && forall k :: 0 <= k < f - 1 ==> !Bit(t, k)
    ensures var pos := 64 * m + f - 1; IsNext(b, bits, start, if pos >= bits then bits else pos, v)
  {
    hide Bit;
    var pos := 64 * m + f - 1;
    TestAt(b, m, f - 1);
    forall k | start <= k < pos && k < bits ensures Test(b, k) != v {
      if 64 * m <= k {
        assert k / 64 == m && k == 64 * m + k % 64;
        assert !Bit(t, k % 64);
      }
    }
  }

  lemma NothingFound(b: seq<word>, bits: nat, start: nat, v: bool)
    requires bits <= 64 * |b| && Longs(bits) <= |b| && NoneBefore(b, Longs(bits), start, v)
    ensures IsNext(b, bits, start, bits, v)
  {
  }

  /** find_next_bit. */
  method FindNextBit(bitmap: array<word>, bits: nat, start: nat) returns (pos: nat)
    requires bits <= 64 * bitmap.Length
    ensures IsNext(bitmap[..], bits, start, pos, true)
  {
    hide Bit, Test, Candidates, NoneBefore, And, FirstMask;
    var l := Longs(bits);
    var firstLong := start / 64;
    var longLower := start - start % 64;
    if start >= bits {
      return bits;
    }
    ghost var b := bitmap[..];
    FirstCandidates(bitmap[firstLong], start);
    NoneYet(b, start, true);
    var t := And(bitmap[firstLong], FirstMask(start));
    var i := firstLong + 1;
    while t == 0 && i < l
      invariant firstLong < i <= l && longLower == 64 * (i - 1)
      invariant Candidates(t, b[i - 1], i - 1, start, true) && NoneBefore(b, i - 1, start, true)
    {
      NoneInWord(b, t, i - 1, start, true);
      NextCandidates(b[i], i, start);
      longLower := longLower + 64;
      t := bitmap[i];
      i := i + 1;
    }
    if t == 0 {
      NoneInWord(b, t, i - 1, start, true);
      NothingFound(b, bits, start, true);
      return bits;
    }
    var f := FindFirstSet(t);
    FoundInWord(b, bits, t, i - 1, start, true, f);
    pos := longLower + f - 1;
    if pos >= bits {
      return bits;
    }
  }

  lemma NoneYet(b: seq<word>, start: nat, v: bool)
    requires start < 64 * |b|
    ensures NoneBefore(b, start / 64, start, v)
  {
  }

  /** find_next_zero_bit. */
  method FindNextZeroBit(bitmap: array<word>, bits: nat, start: nat) returns (pos: nat)
    requires bits <= 64 * bitmap.Length
    ensures IsNext(bitmap[..], bits, start, pos, false)
  {
    hide Bit, Test, Candidates, NoneBefore, Or, Not, Xor, FirstMask;
    var l := Longs(bits);
    var firstLong := start / 64;
    var longLower := start - start % 64;
    if start >= bits {
      return bits;
    }
    ghost var b := bitmap[..];
    FirstCandidates(bitmap[firstLong], start);
    NoneYet(b, start, false);
    var t := Or(bitmap[firstLong], Not(FirstMask(start)));
    t := Xor(t, ONES);
    var i := firstLong + 1;
    while t == 0 && i < l
      invariant firstLong < i <= l && longLower == 64 * (i - 1)
      invariant Candidates(t, b[i - 1], i - 1, start, false) && NoneBefore(b, i - 1, start, false)
    {
      NoneInWord(b, t, i - 1, start, false);
      NextCandidates(b[i], i, start);
      longLower := longLower + 64;
      t := bitmap[i];
      t := Xor(t, ONES);
      i := i + 1;
    }
    if t == 0 {
      NoneInWord(b, t, i - 1, start, false);
      NothingFound(b, bits, start, false);
      return bits;
    }
    var f := FindFirstSet(t);
    FoundInWord(b, bits, t, i - 1, start, false, f);
    pos := longLower + f - 1;
    if pos >= bits {
      return bits;
    }
  }

  // ---- Iteration and weight ----

  /** The set bit numbers below `n`, in increasing order. */
  function SetBits(b: seq<word>, n: nat): seq<nat>
    requires n <= 64 * |b|
  {
    if n == 0 then [] else SetBits(b, n - 1) + if Test(b, n - 1) then [n - 1] else []
  }

  /** Exactly the set bits, each once, increasing. */
  lemma {:induction false} SetBitsSound(b: seq<word>, n: nat)
    requires n <= 64 * |b|
    ensures forall k :: k in SetBits(b, n) <==> 0 <= k < n && Test(b, k)
    ensures forall x, y :: 0 <= x < y < |SetBits(b, n)| ==> SetBits(b, n)[x] < SetBits(b, n)[y]
  {
    hide Test;
    if n > 0 {
      SetBitsSound(b, n - 1);
      var s := SetBits(b, n - 1);
      assert forall x :: 0 <= x < |s| ==> s[x] in s;
    }
  }

  /** Nothing is set from `n` up to `m`. */
  lemma {:induction false} SetBitsSkip(b: seq<word>, n: nat, m: nat)
    requires n <= m <= 64 * |b| && forall k :: n <= k < m ==> !Test(b, k)
    ensures SetBits(b, m) == SetBits(b, n)
  {
    hide Test;
    if n < m {
      SetBitsSkip(b, n, m - 1);
      assert !Test(b, m - 1);
    }
  }

  /** for_each_set_bit: the bit numbers visited, in order. */
  method ForEachSetBit(bitmap: array<word>, bits: nat) returns (visited: seq<nat>)
    requires bits <= 64 * bitmap.Length
    ensures visited == SetBits(bitmap[..], bits)
  {
    hide Test;
    ghost var b := bitmap[..];
    visited := [];
    var bit := FindNextBit(bitmap, bits, 0);
    SetBitsSkip(b, 0, bit);
    while bit < bits
      invariant bit <= bits && visited == SetBits(b, bit)
      invariant bit < bits ==> Test(b, bit)
      decreases bits - bit
    {
      visited := visited + [bit];
      var next := FindNextBit(bitmap, bits, bit + 1);
      SetBitsSkip(b, bit + 1, next);
      bit := next;
    }
  }

  /** Counting a word at a time. */
  lemma {:induction false} SetBitsOfWord(b: seq<word>, i: nat, n: nat)
    requires i < |b| && n <= 64
    ensures |SetBits(b, 64 * i + n)| == |SetBits(b, 64 * i)| + Count(b[i], n)
  {
    hide Bit, Test;
    if n > 0 {
      SetBitsOfWord(b, i, n - 1);
      TestAt(b, i, n - 1);
    }
  }

  lemma {:induction false} CountMasked(w: word, mask: word, r: nat, n: nat)
    requires r <= 64 && n <= 64 && forall j :: 0 <= j < 64 ==> (Bit(mask, j) <==> j < r)
    ensures Count(And(w, mask), n) == Count(w, if n <= r then n else r)
  {
    hide Bit, And;
    if n > 0 {
      CountMasked(w, mask, r, n - 1);
      BitBitwise(w, mask, n - 1);
    }
  }

  /** bitmap_weight: the number of bits a full iteration visits. */
  method WeightOf(bitmap: array<word>, bits: nat) returns (sum: nat)
    requires 1 <= bits <= 64 * bitmap.Length
    ensures sum == |SetBits(bitmap[..], bits)|
  {
    hide Bit, Test, Hweight, Count, And, LastMask, SetBits;
    ghost var b := bitmap[..];
    var l := Longs(bits);
    var i := 0;
    sum := 0;
    NoBitsYet(b);
    while i < l - 1
      invariant 0 <= i <= l - 1 && sum == |SetBits(b, 64 * i)|
    {
      HweightCounts(bitmap[i]);
      SetBitsOfWord(b, i, 64);
      sum := sum + Hweight(bitmap[i]);
      i := i + 1;
    }
    ghost var r := bits - 64 * (l - 1);
    LastMaskIs(bits);
    HweightCounts(And(bitmap[l - 1], LastMask(bits)));
    CountMasked(bitmap[l - 1], LastMask(bits), r, 64);
    SetBitsOfWord(b, l - 1, r);
    sum := sum + Hweight(And(bitmap[l - 1], LastMask(bits)));
  }

  lemma NoBitsYet(b: seq<word>)
    ensures SetBits(b, 0) == []
  {
  }

  /** The last word's mask covers the bits below `bits`. */
  lemma LastMaskIs(bits: nat)
    requires bits >= 1
    ensures var r := bits - 64 * (Longs(bits) - 1);
            1 <= r <= 64 && forall j :: 0 <= j < 64 ==>
            (Bit(LastMask(bits), j) <==> j < r)
  {
    hide Bit;
    assert bits == 64 * (bits / 64) + bits % 64;
    if bits % 64 == 0 { assert Longs(bits) == bits / 64; } else { assert Longs(bits) == bits / 64 + 1; }
  }

  // ---- Relations ----

  /** No usable bit is set. */
  predicate Clear(x: seq<word>, bits: nat)
    requires bits <= 64 * |x|
  {
    forall k :: 0 <= k < bits ==> !Test(x, k)
  }

  predicate LeadingZero(x: seq<word>, n: nat)
    requires n <= |x|
  {
    forall i :: 0 <= i < n ==> x[i] == 0
  }

  /** No usable bit is set exactly when all words but the last are zero and the last one is, under its mask. */
  lemma ClearByWords(x: seq<word>, bits: nat)
    requires 1 <= bits && |x| == Longs(bits)
    ensures Clear(x, bits) <==> LeadingZero(x, |x| - 1) && And(x[|x| - 1], LastMask(bits)) == 0
  {
    hide Bit, Test, And, LastMask;
    var l := |x|;
    LastMaskIs(bits);
    ClearLast(x, bits);
    if Clear(x, bits) {
      forall i | 0 <= i < l - 1 ensures x[i] == 0 {
        ZeroIff(x[i]);
        forall j | 0 <= j < 64 ensures !Bit(x[i], j) { TestAt(x, i, j); }
      }
    }
    if LeadingZero(x, l - 1) {
      forall k | 0 <= k < 64 * (l - 1) ensures !Test(x, k) {
        Position(x, k);
        TestAt(x, k / 64, k % 64);
        ZeroIff(x[k / 64]);
      }
    }
  }

  lemma ClearLast(x: seq<word>, bits: nat)
    requires 1 <= bits && |x| == Longs(bits)
    ensures And(x[|x| - 1], LastMask(bits)) == 0 <==> forall k :: 64 * (|x| - 1) <= k < bits ==> !Test(x, k)
  {
    hide Bit, And, LastMask;
    var last, r := |x| - 1, bits - 64 * (|x| - 1);
    LastMaskIs(bits);
    BitAnd(LastMask(bits), x[last]);
    MaskTest(LastMask(bits), x[last], r);
    assert forall k :: 64 * last <= k < bits ==>
           k / 64 == last && k == 64 * last + k % 64 && (Test(x, k) <==> Bit(x[last], k % 64));
    forall j | 0 <= j < r ensures Test(x, 64 * last + j) <==> Bit(x[last], j) { TestAt(x, last, j); }
  }

  lemma BitAnd(a: word, b: word)
    ensures And(a, b) == And(b, a)
  {
  }

  // The word-wise combinations the relations look at, over the words in use.

  function XorWords(a: seq<word>, b: seq<word>, l: nat): (x: seq<word>)
    requires l <= |a| && l <= |b|
    ensures |x| == l && forall i :: 0 <= i < l ==> x[i] == Xor(a[i], b[i])
  {
    seq(l, i requires 0 <= i < l => Xor(a[i], b[i]))
  }

  function AndWords(a: seq<word>, b: seq<word>, l: nat): (x: seq<word>)
    requires l <= |a| && l <= |b|
    ensures |x| == l && forall i :: 0 <= i < l ==> x[i] == And(a[i], b[i])
  {
    seq(l, i requires 0 <= i < l => And(a[i], b[i]))
  }

  function AndNotWords(a: seq<word>, b: seq<word>, l: nat): (x: seq<word>)
    requires l <= |a| && l <= |b|
    ensures |x| == l && forall i :: 0 <= i < l ==> x[i] == And(a[i], Not(b[i]))
  {
    seq(l, i requires 0 <= i < l => And(a[i], Not(b[i])))
  }

  function NotWords(a: seq<word>, l: nat): (x: seq<word>)
    requires l <= |a|
    ensures |x| == l && forall i :: 0 <= i < l ==> x[i] == Not(a[i])
  {
    seq(l, i requires 0 <= i < l => Not(a[i]))
  }

  lemma WordsBitwise(a: seq<word>, b: seq<word>, l: nat, k: nat)
    requires l <= |a| && l <= |b| && k < 64 * l
    ensures Test(XorWords(a, b, l), k) <==> Test(a, k) != Test(b, k)
    ensures Test(AndWords(a, b, l), k) <==> Test(a, k) && Test(b, k)
    ensures Test(AndNotWords(a, b, l), k) <==> Test(a, k) && !Test(b, k)
    ensures Test(NotWords(a, l), k) <==> !Test(a, k)
  {
    hide Bit, Xor, And, Not;
    var i, j := k / 64, k % 64;
    assert i < l;
    BitBitwise(a[i], b[i], j);
    BitBitwise(b[i], b[i], j);
    BitBitwise(a[i], Not(b[i]), j);
  }

  lemma NonzeroWord(x: seq<word>, bits: nat, i: nat)
    requires 1 <= bits && |x| == Longs(bits) && i < |x| - 1 && x[i] != 0
    ensures !Clear(x, bits)
  {
    hide Clear, And, LastMask;
    ClearByWords(x, bits);
  }

  /** The usable bits of two bitmaps are the same. */
  predicate SameBits(a: seq<word>, b: seq<word>, bits: nat)
    requires bits <= 64 * |a| && bits <= 64 * |b|
  {
    forall k :: 0 <= k < bits ==> (Test(a, k) <==> Test(b, k))
  }

  predicate CommonBit(a: seq<word>, b: seq<word>, bits: nat)
    requires bits <= 64 * |a| && bits <= 64 * |b|
  {
    exists k :: 0 <= k < bits && Test(a, k) && Test(b, k)
  }

  predicate Included(a: seq<word>, b: seq<word>, bits: nat)
    requires bits <= 64 * |a| && bits <= 64 * |b|
  {
    forall k :: 0 <= k < bits && Test(a, k) ==> Test(b, k)
  }

  predicate AllSet(a: seq<word>, bits: nat)
    requires bits <= 64 * |a|
  {
    forall k :: 0 <= k < bits ==> Test(a, k)
  }

  lemma RelationsByWords(a: seq<word>, b: seq<word>, bits: nat, l: nat)
    requires l == Longs(bits) && l <= |a| && l <= |b|
    ensures SameBits(a, b, bits) <==> Clear(XorWords(a, b, l), bits)
    ensures CommonBit(a, b, bits) <==> !Clear(AndWords(a, b, l), bits)
    ensures Included(a, b, bits) <==> Clear(AndNotWords(a, b, l), bits)
    ensures AllSet(a, bits) <==> Clear(NotWords(a, l), bits)
    ensures Clear(a, bits) <==> Clear(a[..l], bits)
  {
    hide Bit, Xor, And, Not, XorWords, AndWords, AndNotWords, NotWords, Test;
    forall k | 0 <= k < bits
      ensures Test(XorWords(a, b, l), k) <==> Test(a, k) != Test(b, k)
      ensures Test(AndWords(a, b, l), k) <==> Test(a, k) && Test(b, k)
      ensures Test(AndNotWords(a, b, l), k) <==> Test(a, k) && !Test(b, k)
      ensures Test(NotWords(a, l), k) <==> !Test(a, k)
    {
      WordsBitwise(a, b, l, k);
    }
    forall k | 0 <= k < bits ensures Test(a, k) <==> Test(a[..l], k) { TestPrefix(a, l, k); }
  }

  lemma TestPrefix(a: seq<word>, l: nat, k: nat)
    requires l <= |a| && k < 64 * l
    ensures Test(a, k) <==> Test(a[..l], k)
  {
  }

  /** bitmap_equal; memcmp as the comparison of all words but the last. */
  method Equal(b1: array<word>, b2: array<word>, bits: nat) returns (r: bool)
    requires 1 <= bits <= 64 * b1.Length && bits <= 64 * b2.Length
    ensures r <==> SameBits(b1[..], b2[..], bits)
  {
    hide Clear, And, Xor, Not, LastMask, Test, SameBits, CommonBit, Included, AllSet;
    var l := Longs(bits);
    ghost var x := XorWords(b1[..], b2[..], l);
    RelationsByWords(b1[..], b2[..], bits, l);
    ClearByWords(x, bits);
    var i := 0;
    while i < l - 1
      invariant 0 <= i <= l - 1 && LeadingZero(x, i)
    {
      XorIsDifference(b1[i], b2[i]);
      if b1[i] != b2[i] {
        NonzeroWord(x, bits, i);
        return false;
      }
      i := i + 1;
    }
    r := And(Xor(b1[l - 1], b2[l - 1]), LastMask(bits)) == 0;
  }

  /** bitmap_intersects. */
  method Intersects(b1: array<word>, b2: array<word>, bits: nat) returns (r: bool)
    requires 1 <= bits <= 64 * b1.Length && bits <= 64 * b2.Length
    ensures r <==> CommonBit(b1[..], b2[..], bits)
  {
    hide Clear, And, Xor, Not, LastMask, Test, SameBits, CommonBit, Included, AllSet;
    var l := Longs(bits);
    ghost var x := AndWords(b1[..], b2[..], l);
    RelationsByWords(b1[..], b2[..], bits, l);
    ClearByWords(x, bits);
    var i := 0;
    while i < l - 1
      invariant 0 <= i <= l - 1 && LeadingZero(x, i)
    {
      if And(b1[i], b2[i]) != 0 {
        NonzeroWord(x, bits, i);
        return true;
      }
      i := i + 1;
    }
    r := And(And(b1[l - 1], b2[l - 1]), LastMask(bits)) != 0;
  }

  /** bitmap_subset. */
  method Subset(b1: array<word>, b2: array<word>, bits: nat) returns (r: bool)
    requires 1 <= bits <= 64 * b1.Length && bits <= 64 * b2.Length
    ensures r <==> Included(b1[..], b2[..], bits)
  {
    hide Clear, And, Xor, Not, LastMask, Test, SameBits, CommonBit, Included, AllSet;
    var l := Longs(bits);
    ghost var x := AndNotWords(b1[..], b2[..], l);
    RelationsByWords(b1[..], b2[..], bits, l);
    ClearByWords(x, bits);
    var i := 0;
    while i < l - 1
      invariant 0 <= i <= l - 1 && LeadingZero(x, i)
    {
      if And(b1[i], Not(b2[i])) != 0 {
        NonzeroWord(x, bits, i);
        return false;
      }
      i := i + 1;
    }
    r := And(And(b1[l - 1], Not(b2[l - 1])), LastMask(bits)) == 0;
  }

  /** bitmap_empty. */
  method Empty(bitmap: array<word>, bits: nat) returns (r: bool)
    requires 1 <= bits <= 64 * bitmap.Length
    ensures r <==> Clear(bitmap[..], bits)
  {
    hide Clear, And, Xor, Not, LastMask, Test, SameBits, CommonBit, Included, AllSet;
    var l := Longs(bits);
    ghost var x := bitmap[..l];
    RelationsByWords(bitmap[..], bitmap[..], bits, l);
    ClearByWords(x, bits);
    var i := 0;
    while i < l - 1
      invariant 0 <= i <= l - 1 && LeadingZero(x, i)
    {
      if bitmap[i] != 0 {
        NonzeroWord(x, bits, i);
        return false;
      }
      i := i + 1;
    }
    r := And(bitmap[l - 1], LastMask(bits)) == 0;
  }

  /** bitmap_full. */
  method Full(bitmap: array<word>, bits: nat) returns (r: bool)
    requires 1 <= bits <= 64 * bitmap.Length
    ensures r <==> AllSet(bitmap[..], bits)
  {
    hide Clear, And, Xor, Not, LastMask, Test, SameBits, CommonBit, Included, AllSet;
    var l := Longs(bits);
    ghost var x := NotWords(bitmap[..], l);
    RelationsByWords(bitmap[..], bitmap[..], bits, l);
    ClearByWords(x, bits);
    var i := 0;
    while i < l - 1
      invariant 0 <= i <= l - 1 && LeadingZero(x, i)
    {
      if Not(bitmap[i]) != 0 {
        NonzeroWord(x, bits, i);
        return false;
      }
      i := i + 1;
    }
    r := And(Not(bitmap[l - 1]), LastMask(bits)) == 0;
  }
}
