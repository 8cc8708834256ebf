/** The log ring: it keeps the last bytes ever written, and reads them back in order. */
module LogBuffer {

  newtype byte = x: int | 0 <= x < 256

  const INT_MAX: nat := 0x7fff_ffff
  const U32: nat := 0x1_0000_0000

  /** The last `n` elements of `s`, or all of it when it is shorter. */
  function Last(s: seq<byte>, n: nat): (t: seq<byte>)
    ensures |t| == if |s| < n then |s| else n
  {
    if |s| <= n then s else s[|s| - n..]
  }

  /** What the memory should look like: a prefix of the history, or a full ring that starts at `tail`. */
  ghost predicate Keeps(mem: seq<byte>, tail: nat, wrapped: bool, written: seq<byte>) {
    if wrapped
    then (tail < |mem| || tail == |mem| == 0) && |written| >= |mem| && mem[tail..] + mem[..tail] == Last(written, |mem|)
    else tail == |written| && (tail < |mem| || tail == 0) && tail <= |mem| && mem[..tail] == written
  }

  function Patch(m: seq<byte>, at: nat, d: seq<byte>): (t: seq<byte>)
    requires at + |d| <= |m|
    ensures |t| == |m|
  {
    m[..at] + d + m[at + |d|..]
  }

  lemma TwoPatches(m: seq<byte>, tail: nat, d: seq<byte>)
    requires tail <= |m| && |d| <= |m| && |m| - tail <= |d|
    ensures Patch(Patch(m, tail, d[..|m| - tail]), 0, d[|m| - tail..]) == Written(m, tail, d)
  {
    var p := Patch(m, tail, d[..|m| - tail]);
    assert p == m[..tail] + d[..|m| - tail];
  }

  /** The memory after `d`, at most one lap long, was copied in at `tail`, wrapping at the end. */
  function Written(mem: seq<byte>, tail: nat, d: seq<byte>): (t: seq<byte>)
    requires tail <= |mem| && |d| <= |mem|
    ensures |t| == |mem|
  {
    var room := |mem| - tail;
    if room > |d| then Patch(mem, tail, d)
    else d[room..] + mem[|d| - room..tail] + d[..room]
  }

  /** Only the last `n` bytes of an addition, and of what was there before, matter. */
  lemma LastOfAddition(w: seq<byte>, d: seq<byte>, n: nat)
    ensures Last(w + Last(d, n), n) == Last(w + d, n)
  {
    if |d| > n { assert (w + d)[|w + d| - n..] == d[|d| - n..]; }
  }

  lemma LastOfHistory(w: seq<byte>, d: seq<byte>, n: nat)
    ensures Last(Last(w, n) + d, n) == Last(w + d, n)
  {
    if |w| > n {
      var l := Last(w, n);
      assert w == w[..|w| - n] + l;
      assert w + d == w[..|w| - n] + (l + d);
    }
  }

  /** A write that stays inside the memory. */
  lemma WriteInside(mem: seq<byte>, tail: nat, wrapped: bool, written: seq<byte>, d: seq<byte>)
    requires Keeps(mem, tail, wrapped, written) && tail + |d| < |mem|
    ensures Keeps(Written(mem, tail, d), tail + |d|, wrapped, written + d)
  {
    var t := Written(mem, tail, d);
    if wrapped {
      var ring := mem[tail..] + mem[..tail];
      assert t[tail + |d|..] + t[..tail + |d|] == ring[|d|..] + d;
      assert Last(ring + d, |mem|) == ring[|d|..] + d;
      LastOfHistory(written, d, |mem|);
    }
  }

  lemma LastSplit(w: seq<byte>, d: seq<byte>, n: nat)
    requires |d| <= n <= |w| + |d|
    ensures Last(w + d, n) == w[|w| + |d| - n..] + d
  {
  }

  lemma AcrossRing(mem: seq<byte>, tail: nat, d: seq<byte>)
    requires tail <= |mem| <= tail + |d| && |d| <= |mem|
    ensures var t, n := Written(mem, tail, d), tail + |d| - |mem|; t[n..] + t[..n] == mem[n..tail] + d
  {
    var t, n, room := Written(mem, tail, d), tail + |d| - |mem|, |mem| - tail;
    assert t == d[room..] + mem[n..tail] + d[..room];
    FrontToEnd(d[room..], mem[n..tail], d[..room]);
    assert d[..room] + d[room..] == d;
  }

  lemma FrontToEnd(p: seq<byte>, q: seq<byte>, r: seq<byte>)
    ensures var t := p + q + r; t[|p|..] + t[..|p|] == q + (r + p)
  {
    var t := p + q + r;
    assert t[..|p|] == p && t[|p|..] == q + r;
  }

  /** A write that reaches or passes the end of the memory. */
  lemma WriteAcross(mem: seq<byte>, tail: nat, wrapped: bool, written: seq<byte>, d: seq<byte>)
    requires Keeps(mem, tail, wrapped, written) && tail + |d| >= |mem| && |d| <= |mem|
    ensures Keeps(Written(mem, tail, d), tail + |d| - |mem|, true, written + d)
  {
    hide Written, Last;
    var n := tail + |d| - |mem|;
    AcrossRing(mem, tail, d);
    if wrapped {
      var ring := mem[tail..] + mem[..tail];
      LastOfHistory(written, d, |mem|);
      LastSplit(ring, d, |mem|);
      assert ring[|d|..] == mem[n..tail];
    } else {
      LastSplit(written, d, |mem|);
      assert written[n..] == mem[n..tail];
    }
  }

  class LogBuffer {
    const mem: array<byte>
    var memSize: nat
    var tail: nat
    var roundFlag: bool
    /** Every byte ever written. */
    ghost var written: seq<byte>

    ghost predicate Valid()
      reads this, mem
    {
      memSize == mem.Length <= INT_MAX && Keeps(mem[..], tail, roundFlag, written)
    }

    constructor (size: nat)
      requires size <= INT_MAX
      ensures Valid() && fresh(mem) && memSize == size && written == []
    {
      mem := new byte[size](_ => 0);
      memSize := size;
      tail := 0;
      roundFlag := false;
      written := [];
    }

    method CopyIn(at: nat, data: seq<byte>)
      requires at + |data| <= mem.Length
      modifies mem
      ensures mem[..] == Patch(old(mem[..]), at, data)
    {
      for i := 0 to |data|
        invariant forall k :: 0 <= k < mem.Length ==>
                    mem[k] == if at <= k < at + i then data[k - at] else old(mem[k])
      {
        mem[at + i] := data[i];
      }
    }

    method CopyWrapped(d: seq<byte>)
      requires memSize == mem.Length && tail <= memSize && |d| <= memSize
      modifies mem
      ensures mem[..] == Written(old(mem[..]), tail, d)
    {
      hide Patch;
      var room := memSize - tail;
      if room > |d| {
        CopyIn(tail, d);
      } else {
        TwoPatches(mem[..], tail, d);
        CopyIn(tail, d[..room]);
        CopyIn(0, d[room..]);
      }
    }

    /** Data longer than the memory loses its front. */
    method Puts(data: seq<byte>) returns (n: nat)
      requires Valid() && |data| <= INT_MAX
      modifies this, mem
      ensures Valid() && memSize == old(memSize)
      ensures written == old(written) + data
      ensures n == if |data| > memSize then memSize else |data|
    {
      hide Keeps, Written;
      var d := data;
      if |d| > memSize { d := d[|d| - memSize..]; }
      PutsKeeps(mem[..], tail, roundFlag, written, data, d);
      n := |d|;
      CopyWrapped(d);
      tail := (tail + n) % U32;
      if tail >= memSize {
        tail := tail - memSize;
        roundFlag := true;
      }
      written := written + data;
    }

    /** Read back, oldest byte first. */
    method Gets(buf: array<byte>) returns (n: nat)
      requires Valid() && buf != mem && buf.Length >= |Last(written, memSize)|
      modifies buf
      ensures n == |Last(written, memSize)| && buf[..n] == Last(written, memSize)
      ensures buf[n..] == old(buf[n..])
    {
      hide Last;
      KeptLast(mem[..], tail, roundFlag, written);
      if roundFlag {
        forall k | 0 <= k < memSize - tail { buf[k] := mem[tail + k]; }
        forall k | 0 <= k < tail { buf[memSize - tail + k] := mem[k]; }
        assert buf[..memSize] == mem[tail..] + mem[..tail];
        n := memSize;
      } else {
        forall k | 0 <= k < tail { buf[k] := mem[k]; }
        n := tail;
      }
    }
  }

  lemma PutsKeeps(mem: seq<byte>, tail: nat, wrapped: bool, written: seq<byte>, data: seq<byte>, d: seq<byte>)
    requires Keeps(mem, tail, wrapped, written) && d == Last(data, |mem|)
    ensures tail <= |mem| && |d| <= |mem|
    ensures if tail + |d| < |mem| then Keeps(Written(mem, tail, d), tail + |d|, wrapped, written + data)
            else Keeps(Written(mem, tail, d), tail + |d| - |mem|, true, written + data)
  {
    if tail + |d| < |mem| {
      assert d == data;
      WriteInside(mem, tail, wrapped, written, d);
    } else {
      WriteAcross(mem, tail, wrapped, written, d);
      LastOfAddition(written, data, |mem|);
    }
  }

  lemma KeptLast(mem: seq<byte>, tail: nat, wrapped: bool, written: seq<byte>)
    requires Keeps(mem, tail, wrapped, written)
    ensures tail <= |mem|
    ensures Last(written, |mem|) == if wrapped then mem[tail..] + mem[..tail] else mem[..tail]
  {
  }

  function Concat(parts: seq<seq<byte>>): seq<byte> {
    if parts == [] then [] else Concat(parts[..|parts| - 1]) + parts[|parts| - 1]
  }

  /** After any history of writes, reading gives the last min(total, size) bytes in order. */
  method RunAll(size: nat, puts: seq<seq<byte>>) returns (out: seq<byte>)
    requires size <= 0x7fff_ffff && forall i :: 0 <= i < |puts| ==> |puts[i]| <= 0x7fff_ffff
    ensures out == Last(Concat(puts), size)
  {
    hide Keeps, Last;
    var log := new LogBuffer(size);
    assert puts[..0] == [];
    for i := 0 to |puts|
      invariant fresh(log) && fresh(log.mem) && log.Valid() && log.memSize == size
      invariant log.written == Concat(puts[..i])
    {
      assert puts[..i + 1][..i] == puts[..i];
      var _ := log.Puts(puts[i]);
    }
    assert puts[..|puts|] == puts;
    var buf := new byte[size](_ => 0);
    var n := log.Gets(buf);
    out := buf[..n];
  }
}
