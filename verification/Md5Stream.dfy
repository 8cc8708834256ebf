/** The streaming context of the MD5 implementation: a 128-byte buffer, a 64-bit byte count and the registers. */
module Md5Stream {
  import opened Md5

  /** The two words hold the number `n` modulo 2^64. */
  predicate Counts(low: nat, high: nat, n: nat) {
    low < U32 && high < U32 && high * U32 + low == n % U64
  }

  /**
   `v` and the byte count cover a whole number of blocks of what was fed so far; the rest is pending. The pending
   part may be a full block: the source keeps it back until more input or the end arrives.
   */
  ghost predicate Holds(v: Regs, low: nat, high: nat, pending: seq<bv8>, fed: seq<bv8>) {
    && |pending| <= |fed|
    && var n := |fed| - |pending|;
    && n % 64 == 0
    && fed[n..] == pending
    && v == Process(INIT, fed[..n])
    && Counts(low, high, n)
  }

  /** The double-word count after adding `n` bytes: the source adds to the low word and carries by comparison. */
  function CountLow(low: nat, n: nat): nat { (low + n) % U32 }
  function CountHigh(low: nat, high: nat, n: nat): nat { if (low + n) % U32 < n then (high + 1) % U32 else high }

  /** One carry is enough as long as each addition is below 2^32. */
  lemma CountAdds(low: nat, high: nat, total: nat, n: nat)
    requires Counts(low, high, total) && n < U32
    ensures Counts(CountLow(low, n), CountHigh(low, high, n), total + n)
  {
    AddModulo(total, n);
    var sum := low + n;
    if sum < U32 {
      assert sum % U32 == sum;
      assert (high * U32 + low + n) % U64 == high * U32 + sum;
    } else {
      assert sum % U32 == sum - U32;
      if high + 1 < U32 {
        assert (high + 1) % U32 == high + 1;
      } else {
        assert (high + 1) % U32 == 0;
      }
    }
  }

  /** The carry that the comparison reports is the only one, modulo 2^32. */
  predicate CountsRight(low: nat, n: nat) {
    n < U32 || (low + n) / U32 % U32 == 1
  }

  /** The double-word sum of any length: the low word, and the carries counted in full. */
  lemma TrueCount(low: nat, high: nat, total: nat, n: nat)
    requires Counts(low, high, total)
    ensures (total + n) % U64 == (high + (low + n) / U32) % U32 * U32 + (low + n) % U32
  {
    AddModulo(total, n);
    var q, r := (low + n) / U32, (low + n) % U32;
    var t, h := (high + q) / U32, (high + q) % U32;
    assert low + n == q * U32 + r && high + q == t * U32 + h;
    assert high * U32 + low + n == t * U64 + (h * U32 + r);
    DropMultiple(t, h * U32 + r);
  }

  lemma SameCarry(high: nat, q: nat)
    requires high < U32
    ensures (high + q) % U32 == (high + 1) % U32 <==> q % U32 == 1
  {
    var a, b := q / U32, q % U32;
    assert q == a * U32 + b;
    assert (high + q) % U32 == (high + b) % U32 by {
      assert high + q == a * U32 + (high + b);
    }
    assert (high + b) % U32 == if high + b < U32 then high + b else high + b - U32;
  }

  /**
   * For a call of any length the byte count stays right if and only if the length is below 2^32
   * or the low word happens to overflow exactly once, modulo 2^32.
   */
  lemma CountAddsExactly(low: nat, high: nat, total: nat, n: nat)
    requires Counts(low, high, total)
    ensures Counts(CountLow(low, n), CountHigh(low, high, n), total + n) <==> CountsRight(low, n)
  {
    if n < U32 {
      CountAdds(low, high, total, n);
    } else {
      TrueCount(low, high, total, n);
      SameCarry(high, (low + n) / U32);
    }
  }

  /** A first call with 2^33 bytes loses a carry. */
  lemma LongCallMiscounts()
    ensures Counts(0, 0, 0) && !Counts(CountLow(0, 2 * U32), CountHigh(0, 0, 2 * U32), 2 * U32)
  {
    CountAddsExactly(0, 0, 0, 2 * U32);
  }

  lemma AddModulo(total: nat, n: nat)
    ensures (total + n) % U64 == (total % U64 + n) % U64
  {
    var q := total / U64;
    assert total + n == q * U64 + (total % U64 + n);
  }

  /** Processing the first `k` bytes of what is pending plus new data, `k` a multiple of 64. */
  lemma Absorb(v: Regs, low: nat, high: nat, pending: seq<bv8>, fed: seq<bv8>, data: seq<bv8>, k: nat)
    requires Holds(v, low, high, pending, fed) && k % 64 == 0 && k <= |pending + data| && CountsRight(low, k)
    ensures Holds(Process(v, (pending + data)[..k]), CountLow(low, k), CountHigh(low, high, k),
                  (pending + data)[k..], fed + data)
  {
    hide Process, CountLow, CountHigh, Counts, CountsRight;
    var n, all := |fed| - |pending|, pending + data;
    Regroup(fed, pending, data, k);
    ProcessConcat(INIT, fed[..n], all[..k]);
    CountAddsExactly(low, high, n, k);
    SumOfMultiples(n, k);
  }

  lemma SumOfMultiples(n: nat, k: nat)
    requires n % 64 == 0 && k % 64 == 0
    ensures (n + k) % 64 == 0
  {
  }

  lemma Regroup(fed: seq<bv8>, pending: seq<bv8>, data: seq<bv8>, k: nat)
    requires |pending| <= |fed| && fed[|fed| - |pending|..] == pending && k <= |pending| + |data|
    ensures var n, all, more := |fed| - |pending|, pending + data, fed + data;
            && n + k <= |more| && |more| - |all[k..]| == n + k
            && more[..n + k] == fed[..n] + all[..k] && more[n + k..] == all[k..]
  {
    var n := |fed| - |pending|;
    assert fed == fed[..n] + pending;
    assert fed + data == fed[..n] + (pending + data);
  }

  /** A call of `n` bytes: what goes to the registers in one go is counted right. */
  predicate Countable(low: nat, buflen: nat, n: nat) {
    n < U32 || (buflen == 0 && CountsRight(low, n - n % 64)) ||
    (0 < buflen <= 64 && var rest := n + buflen - 128; CountsRight(CountLow(low, 128), rest - rest % 64))
  }

  /** The low word of the byte count and the fill of the buffer. */
  datatype Level = Level(low: nat, buflen: nat)

  /** What waits in the buffer once `n` bytes found it empty, and the count by then. */
  function AfterRest(low: nat, n: nat): Level {
    if n > 64 then Level(CountLow(low, n - n % 64), n % 64) else Level(low, n)
  }

  /** The level after a call of `n` bytes. */
  function AfterCall(l: Level, n: nat): Level
    requires l.buflen <= 64
  {
    var have := l.buflen + n;
    if l.buflen == 0 then AfterRest(l.low, n)
    else if have <= 64 then l.(buflen := have)
    else if have <= 128 then Level(CountLow(l.low, have - have % 64), have % 64)
    else AfterRest(CountLow(l.low, 128), have - 128)
  }

  /** A call is one from an empty buffer, or ends in the buffer, or continues where the buffer was emptied. */
  lemma LevelOfCall(l: Level, n: nat)
    requires l.buflen <= 64
    ensures l.buflen == 0 ==> AfterCall(l, n) == (if n == 0 then l else AfterRest(l.low, n))
    ensures l.buflen > 0 && l.buflen + n > 128 ==>
              && AfterCall(l, 128 - l.buflen) == Level(CountLow(l.low, 128), 0)
              && AfterCall(l, n) == AfterRest(CountLow(l.low, 128), l.buflen + n - 128)
  {
    hide CountLow;
  }

  lemma CountableRest(low: nat, buflen: nat, n: nat)
    requires Countable(low, buflen, n) && buflen <= 64
    ensures buflen == 0 ==> CountsRight(low, n - n % 64)
    ensures 0 < buflen && n + buflen >= 128 ==>
              var rest := n + buflen - 128; CountsRight(CountLow(low, 128), rest - rest % 64)
  {
  }

  lemma NothingToAbsorb(v: Regs, low: nat, high: nat)
    requires low < U32
    ensures Process(v, []) == v && CountLow(low, 0) == low && CountHigh(low, high, 0) == high
  {
  }

  lemma FewAreCounted(low: nat, n: nat)
    requires n < U32
    ensures CountsRight(low, n)
  {
  }

  /** New bytes that only wait in the buffer. */
  lemma JustWaits(v: Regs, low: nat, high: nat, pending: seq<bv8>, fed: seq<bv8>, data: seq<bv8>)
    requires Holds(v, low, high, pending, fed)
    ensures Holds(v, low, high, pending + data, fed + data)
  {
    hide Holds, CountLow, CountHigh, Process;
    Absorb(v, low, high, pending, fed, data, 0);
    LowFits(v, low, high, pending, fed);
    NothingToAbsorb(v, low, high);
    assert (pending + data)[..0] == [] && (pending + data)[0..] == pending + data;
  }

  class Context {
    var A: bv32
    var B: bv32
    var C: bv32
    var D: bv32
    var low: nat
    var high: nat
    var buflen: nat
    const buffer: array<bv8>
    /** Everything fed since initialisation. */
    ghost var fed: seq<bv8>

    ghost function State(): Regs
      reads this
    {
      Regs(A, B, C, D)
    }

    ghost predicate Valid()
      reads this, buffer
    {
      buffer.Length == 128 && buflen <= 64 && Holds(State(), low, high, buffer[..buflen], fed)
    }

    constructor ()
      ensures Valid() && fresh(buffer) && fed == [] && low == 0 && buflen == 0
    {
      A, B, C, D := INIT.a, INIT.b, INIT.c, INIT.d;
      low, high, buflen := 0, 0, 0;
      buffer := new bv8[128](_ => 0);
      fed := [];
    }

    /** Add to the low word; a sum below the addend means a carry. */
    method CountBytes(n: nat)
      modifies this`low, this`high
      ensures low == CountLow(old(low), n) && high == CountHigh(old(low), old(high), n)
    {
      low := (low + n) % U32;
      if low < n { high := (high + 1) % U32; }
    }

    /** Count the bytes and compress whole blocks into the registers. */
    method ProcessBlock(data: seq<bv8>)
      requires |data| % 64 == 0
      modifies this`A, this`B, this`C, this`D, this`low, this`high
      ensures State() == Process(old(State()), data)
      ensures low == CountLow(old(low), |data|) && high == CountHigh(old(low), old(high), |data|)
    {
      hide Words, Operations, AddRegs, CountLow, CountHigh;
      CountBytes(|data|);
      var u := Regs(A, B, C, D);
      var at := 0;
      assert data[0..] == data;
      while at < |data|
        invariant 0 <= at <= |data| && at % 64 == 0
        invariant Process(u, data[at..]) == Process(old(State()), data)
        invariant low == CountLow(old(low), |data|) && high == CountHigh(old(low), old(high), |data|)
      {
        var x := Words(data[at..at + 64]);
        assert data[at..][..64] == data[at..at + 64] && data[at..][64..] == data[at + 64..];
        var s := Scramble(u, x);
        u := AddRegs(s, u);
        at := at + 64;
      }
      assert data[at..] == [];
      A, B, C, D := u.a, u.b, u.c, u.d;
    }

    method Store(at: nat, data: seq<bv8>)
      requires at + |data| <= buffer.Length
      modifies buffer
      ensures buffer[..at] == old(buffer[..at]) && buffer[at..at + |data|] == data
    {
      for i := 0 to |data|
        invariant buffer[..at] == old(buffer[..at]) && buffer[at..at + i] == data[..i]
      {
        buffer[at + i] := data[i];
      }
    }

    /** Something is pending: fill the buffer, and compress once it holds more than one block. */
    method TopUp(data: seq<bv8>) returns (add: nat)
      requires Valid() && buflen != 0
      modifies this, buffer
      ensures add <= |data| && Valid() && fed == old(fed) + data[..add]
      ensures add == if 128 - old(buflen) > |data| then |data| else 128 - old(buflen)
      ensures Level(low, buflen) == AfterCall(old(Level(low, buflen)), add)
    {
      hide Holds, CountLow, CountHigh, Process, CountsRight;
      var left := buflen;
      add := if 128 - left > |data| then |data| else 128 - left;
      ghost var pending := buffer[..left];
      Store(left, data[..add]);
      var have := left + add;
      assert buffer[..have] == pending + data[..add];
      buflen := have;
      if have > 64 {
        Flush(pending, data[..add]);
      } else {
        JustWaits(State(), low, high, pending, fed, data[..add]);
      }
      fed := fed + data[..add];
    }

    /** The buffer holds more than one block: compress what is whole and move the rest to the front. */
    method Flush(ghost pending: seq<bv8>, ghost more: seq<bv8>)
      requires buffer.Length == 128 && 64 < buflen <= 128 && buffer[..buflen] == pending + more
      requires Holds(State(), low, high, pending, fed)
      modifies this`A, this`B, this`C, this`D, this`low, this`high, this`buflen, buffer
      ensures buflen == old(buflen) % 64 && Holds(State(), low, high, buffer[..buflen], fed + more)
      ensures low == CountLow(old(low), old(buflen) - old(buflen) % 64)
    {
      hide Holds, CountLow, CountHigh, Process, CountsRight;
      var have := buflen;
      var whole := have - have % 64;
      FewAreCounted(low, whole);
      Absorb(State(), low, high, pending, fed, more, whole);
      assert buffer[..whole] == (pending + more)[..whole];
      ghost var rest := (pending + more)[whole..];
      assert buffer[whole..have] == rest;
      ProcessBlock(buffer[..whole]);
      Store(0, buffer[whole..have]);
      buflen := have % 64;
      assert buffer[..buflen] == buffer[0..0 + buflen] == rest;
    }

    /** Nothing is pending: compress all whole blocks but, for an exact multiple, keep none back. */
    method Bulk(data: seq<bv8>) returns (n: nat)
      requires Valid() && buflen == 0 && 64 < |data| && CountsRight(low, |data| - |data| % 64)
      modifies this
      ensures n == |data| - |data| % 64 && Valid() && buflen == 0 && fed == old(fed) + data[..n]
      ensures low == CountLow(old(low), n)
    {
      hide Holds, CountLow, CountHigh, Process;
      n := |data| - |data| % 64;
      LowFits(State(), low, high, buffer[..0], fed);
      Absorb(State(), low, high, buffer[..0], fed, data[..n], n);
      assert (buffer[..0] + data[..n])[..n] == data[..n] && (buffer[..0] + data[..n])[n..] == [] == buffer[..0];
      ProcessBlock(data[..n]);
      fed := fed + data[..n];
    }

    /** At most one block is left: it waits in the buffer. */
    method Stash(data: seq<bv8>)
      requires Valid() && buflen == 0 && |data| <= 64
      modifies this, buffer
      ensures Valid() && fed == old(fed) + data && buflen == |data| && low == old(low)
    {
      hide Holds, CountLow, CountHigh, Process;
      JustWaits(State(), low, high, buffer[..0], fed, data);
      assert buffer[..0] + data == data;
      Store(0, data);
      buflen := |data|;
      assert buffer[..buflen] == buffer[0..0 + |data|];
      fed := fed + data;
    }

    /** Feeding keeps the context exact for calls below 2^32 bytes, and for longer ones that are counted right. */
    method ProcessBytes(data: seq<bv8>)
      requires Valid() && Countable(low, buflen, |data|)
      modifies this, buffer
      ensures Valid() && fed == old(fed) + data
      ensures Level(low, buflen) == AfterCall(old(Level(low, buflen)), |data|)
    {
      hide Holds, CountLow, CountsRight, AfterCall, AfterRest;
      ghost var l := Level(low, buflen);
      CountableRest(low, buflen, |data|);
      LevelOfCall(l, |data|);
      var rest := data;
      if buflen != 0 {
        var add := TopUp(rest);
        rest := rest[add..];
      }
      assert fed + rest == old(fed) + data;
      FeedRest(rest);
    }

    /** What is left of a call finds the buffer empty. */
    method FeedRest(data: seq<bv8>)
      requires Valid() && (data != [] ==> buflen == 0 && CountsRight(low, |data| - |data| % 64))
      modifies this, buffer
      ensures Valid() && fed == old(fed) + data
      ensures Level(low, buflen) == if data == [] then old(Level(low, buflen)) else AfterRest(old(low), |data|)
    {
      hide Holds, CountLow, CountsRight;
      var rest := data;
      if |rest| > 64 {
        var n := Bulk(rest);
        rest := rest[n..];
      }
      assert fed + rest == old(fed) + data;
      if |rest| > 0 { Stash(rest); }
    }

    /** Write 0x80, zeros and the two length words behind the pending bytes. */
    method AppendTail(bytes: nat, pad: nat, l: seq<bv8>, h: seq<bv8>)
      requires pad >= 1 && bytes + pad + 8 <= buffer.Length && |l| == 4 && |h| == 4
      modifies buffer
      ensures buffer[..bytes + pad + 8] == old(buffer[..bytes]) + ([0x80] + Zeros(pad - 1) + (l + h))
    {
      hide Zeros;
      ghost var pending := buffer[..bytes];
      ghost var marked := [0x80] + Zeros(pad - 1);
      Store(bytes, [0x80] + Zeros(pad - 1));
      assert buffer[..bytes + pad] == pending + marked;
      Store(bytes + pad, l);
      assert buffer[..bytes + pad + 4] == pending + marked + l;
      Store(bytes + pad + 4, h);
      assert buffer[..bytes + pad + 8] == pending + marked + l + h;
      assert pending + marked + l + h == pending + (marked + (l + h));
    }

    /** Pad, append the length and give out the registers. */
    method Finish() returns (digest: seq<bv8>)
      requires Valid()
      modifies this, buffer
      ensures digest == Digest(old(fed))
    {
      hide Holds, Process, LengthField, WordBytes, NatBytes, Zeros, Digest, ZeroCount, CountLow, CountHigh;
      var bytes := buflen;
      ghost var v, pending := State(), buffer[..bytes];
      FinalCount(v, low, high, pending, fed);
      FinishesBlocks(v, low, high, pending, fed);
      LowFits(v, low, high, pending, fed);
      CountBytes(bytes);
      var pad := if bytes >= 56 then 64 + 56 - bytes else 56 - bytes;
      AppendTail(bytes, pad, NatBytes(8 * low % U32), NatBytes(8 * high % U32 + low / 0x2000_0000));
      assert buffer[..bytes + pad + 8] == pending + Tail(|fed|);
      ProcessBlock(buffer[..bytes + pad + 8]);
      digest := WordBytes(A) + WordBytes(B) + WordBytes(C) + WordBytes(D);
    }
  }

  lemma LowFits(v: Regs, low: nat, high: nat, pending: seq<bv8>, fed: seq<bv8>)
    requires Holds(v, low, high, pending, fed)
    ensures low < U32
  {
    hide Process;
  }

  lemma SplitLow(low: nat)
    requires low < U32
    ensures 8 * low == (low / 0x2000_0000) * U32 + 8 * low % U32 && low / 0x2000_0000 < 8
  {
  }

  lemma SplitHigh(high: nat)
    ensures 8 * high == (8 * high / U32) * U32 + 8 * high % U32 && 8 * high % U32 <= U32 - 8
  {
  }

  lemma DropMultiple(q: nat, x: nat)
    requires x < U64
    ensures (q * U64 + x) % U64 == x
  {
  }

  lemma EightTimes(n: nat)
    ensures 8 * n % U64 == 8 * (n % U64) % U64
  {
    var q, x := 8 * (n / U64), 8 * (n % U64);
    var y, z := x / U64, x % U64;
    assert 8 * n == q * U64 + x;
    assert 8 * n == (q + y) * U64 + z;
    DropMultiple(q + y, z);
  }

  /** Shifting the double-word byte count left by three gives the bit count modulo 2^64. */
  lemma BitCount(low: nat, high: nat, n: nat)
    requires Counts(low, high, n)
    ensures var h, l := 8 * high % U32 + low / 0x2000_0000, 8 * low % U32;
            && h < U32 && l < U32
            && 8 * n % U64 == h * U32 + l
            && 8 * n % U64 % U32 == l && 8 * n % U64 / U32 == h
  {
    var h, l := 8 * high % U32 + low / 0x2000_0000, 8 * low % U32;
    EightTimes(n);
    SplitLow(low);
    SplitHigh(high);
    var q := 8 * high / U32;
    assert 8 * (n % U64) == q * U64 + (h * U32 + l);
    DropMultiple(q, h * U32 + l);
  }

  lemma FinalCount(v: Regs, low: nat, high: nat, pending: seq<bv8>, fed: seq<bv8>)
    requires Holds(v, low, high, pending, fed) && |pending| <= 64
    ensures var l, h := CountLow(low, |pending|), CountHigh(low, high, |pending|);
            && 8 * h % U32 + l / 0x2000_0000 < U32
            && NatBytes(8 * l % U32) + NatBytes(8 * h % U32 + l / 0x2000_0000) == LengthField(|fed|)
  {
    hide Process, NatBytes, CountLow, CountHigh, Counts;
    CountAdds(low, high, |fed| - |pending|, |pending|);
    BitCount(CountLow(low, |pending|), CountHigh(low, high, |pending|), |fed|);
  }

  /** What is pending, with the padding, completes the message to whole blocks and yields the digest. */
  lemma FinishesBlocks(v: Regs, low: nat, high: nat, pending: seq<bv8>, fed: seq<bv8>)
    requires Holds(v, low, high, pending, fed) && |pending| <= 64
    ensures |pending + Tail(|fed|)| % 64 == 0
    ensures Output(Process(v, pending + Tail(|fed|))) == Digest(fed)
    ensures ZeroCount(|fed|) == (if |pending| >= 56 then 119 - |pending| else 55 - |pending|)
  {
    hide Process, Output, Tail;
    var n := |fed| - |pending|;
    PadLength(|fed|);
    ZeroesAgree(n, |pending|);
    assert fed == fed[..n] + pending;
    assert Padded(fed) == fed[..n] + (pending + Tail(|fed|));
    ProcessConcat(INIT, fed[..n], pending + Tail(|fed|));
  }

  lemma ZeroesAgree(n: nat, p: nat)
    requires n % 64 == 0 && p <= 64
    ensures ZeroCount(n + p) == if p >= 56 then 119 - p else 55 - p
    ensures (p + (9 + ZeroCount(n + p))) % 64 == 0
  {
    var q := n / 64;
    if p == 64 {
      assert n + p == 64 * (q + 1);
    } else {
      assert n + p == 64 * q + p;
    }
  }

  function Concat(chunks: seq<seq<bv8>>): seq<bv8> {
    if chunks == [] then [] else Concat(chunks[..|chunks| - 1]) + chunks[|chunks| - 1]
  }

  /** The level after the first chunks. */
  function LevelAfter(chunks: seq<seq<bv8>>): (l: Level)
    ensures l.buflen <= 64
  {
    if chunks == [] then Level(0, 0)
    else AfterCall(LevelAfter(chunks[..|chunks| - 1]), |chunks[|chunks| - 1]|)
  }

  /** Every call is one whose bytes are counted right; calls below 2^32 bytes always are. */
  predicate AllCountable(chunks: seq<seq<bv8>>) {
    forall i :: 0 <= i < |chunks| ==>
      var l := LevelAfter(chunks[..i]); Countable(l.low, l.buflen, |chunks[i]|)
  }

  /** Any way of cutting a message into chunks gives the digest of the message. */
  method HashChunks(chunks: seq<seq<bv8>>) returns (digest: seq<bv8>)
    requires AllCountable(chunks)
    ensures digest == Digest(Concat(chunks))
  {
    hide Holds, Digest, Countable, AfterCall;
    var ctx := new Context();
    assert chunks[..0] == [];
    for i := 0 to |chunks|
      invariant fresh(ctx) && fresh(ctx.buffer) && ctx.Valid() && ctx.fed == Concat(chunks[..i])
      invariant Level(ctx.low, ctx.buflen) == LevelAfter(chunks[..i])
    {
      assert chunks[..i + 1][..i] == chunks[..i];
      ctx.ProcessBytes(chunks[i]);
    }
    assert chunks[..|chunks|] == chunks;
    digest := ctx.Finish();
  }

  /** The one-call form, for every buffer whose whole blocks are counted right. */
  method HashBuffer(data: seq<bv8>) returns (digest: seq<bv8>)
    requires CountsRight(0, |data| - |data| % 64)
    ensures digest == Digest(data)
  {
    hide Holds, Digest;
    var ctx := new Context();
    ctx.ProcessBytes(data);
    assert [] + data == data;
    digest := ctx.Finish();
  }
}
