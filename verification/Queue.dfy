/** The byte ring queue: a bounded FIFO over a fixed buffer, with every sum taken in sixteen bits. */
module Queue {

  newtype byte = x: int | 0 <= x < 256

  const U16: nat := 0x1_0000
  const MAX_SIZE: nat := 32768

  /** Storing a sum in a `uint16_t`. */
  function Wrap16(x: int): (r: nat)
    ensures r < U16
  {
    x % U16
  }

  /** Position `k` places after `head` in a ring of `size` places. */
  function Ring(head: nat, k: nat, size: nat): (r: nat)
    requires head < size && k <= size
    ensures r < size
  {
    if head + k < size then head + k else head + k - size
  }

  /** How far position `p` lies behind `tail`, going round. */
  function Offset(tail: nat, p: nat, size: nat): (d: nat)
    requires tail < size && p < size
    ensures d < size && Ring(tail, d, size) == p
  {
    if p >= tail then p - tail else p + size - tail
  }

  /** The `n` bytes of the ring that start at `head`. */
  function Window(buff: seq<byte>, head: nat, n: nat): (s: seq<byte>)
    requires head < |buff| && n <= |buff|
    ensures |s| == n
    ensures forall k :: 0 <= k < n ==> s[k] == buff[Ring(head, k, |buff|)]
  {
    seq(n, k requires 0 <= k < n => buff[Ring(head, k, |buff|)])
  }

  /** Writing `data` behind the window, and nowhere inside it, appends it. */
  lemma WindowAppend(b: seq<byte>, c: seq<byte>, head: nat, n: nat, data: seq<byte>)
    requires head < |b| == |c| && n + |data| <= |b|
    requires forall k :: 0 <= k < n ==> c[Ring(head, k, |b|)] == b[Ring(head, k, |b|)]
    requires forall k :: n <= k < n + |data| ==> c[Ring(head, k, |b|)] == data[k - n]
    ensures Window(c, head, n + |data|) == Window(b, head, n) + data
  {
  }

  lemma WindowEnqueue(b: seq<byte>, c: seq<byte>, head: nat, n: nat, data: seq<byte>)
    requires head < |b| == |c| && n + |data| <= |b|
    requires forall p :: 0 <= p < |b| ==>
               c[p] == var d := Offset(Ring(head, n, |b|), p, |b|); if d < |data| then data[d] else b[p]
    ensures Window(c, head, n + |data|) == Window(b, head, n) + data
  {
    hide Window;
    WindowAppend(b, c, head, n, data);
  }

  /** Moving the start forward drops bytes from the front. */
  lemma WindowDrop(b: seq<byte>, head: nat, n: nat, k: nat)
    requires head < |b| && k <= n <= |b|
    ensures Window(b, head, n)[k..] == Window(b, Ring(head, k, |b|), n - k)
  {
    var h := Ring(head, k, |b|);
    var l, r := Window(b, head, n)[k..], Window(b, h, n - k);
    forall j | 0 <= j < n - k
      ensures l[j] == r[j]
    {
      assert Ring(h, j, |b|) == Ring(head, k + j, |b|);
      assert Window(b, head, n)[k + j] == b[Ring(head, k + j, |b|)];
    }
  }

  lemma WindowFirst(b: seq<byte>, head: nat, n: nat)
    requires head < |b| && 1 <= n <= |b|
    ensures Window(b, head, n) == [b[head]] + Window(b, Ring(head, 1, |b|), n - 1)
  {
    WindowDrop(b, head, n, 1);
    var w := Window(b, head, n);
    assert w == [w[0]] + w[1..];
  }

  /** The first bytes of the window, as far as they do not wrap, are a slice of the buffer. */
  lemma WindowStraight(b: seq<byte>, head: nat, n: nat, k: nat)
    requires head < |b| && k <= n <= |b| && head + k <= |b|
    ensures Window(b, head, n)[..k] == b[head..head + k]
  {
  }

  predicate SumFits(head: nat, items: nat) { Wrap16(head + items) == head + items }

  /** The tail position computed in sixteen bits is the right one in every state just when the size is at most 32768. */
  lemma TailIsExact(size: nat)
    requires 1 <= size < U16
    ensures (forall head: nat, items: nat :: head < size && items <= size ==> SumFits(head, items)) <==>
            size <= MAX_SIZE
  {
    if size > MAX_SIZE {
      assert !SumFits(size - 1, size);
    }
  }

  /** The buffer after an append, with the position computed in sixteen bits, for a ring of any size. */
  function Appended(b: seq<byte>, head: nat, items: nat, item: byte): (r: seq<byte>)
    requires head < |b| < U16 && items < |b|
    ensures |r| == |b|
  {
    var tail := Wrap16(head + items);
    b[(if tail >= |b| then tail - |b| else tail) := item]
  }

  /** Up to size 32768 the sixteen-bit position is the right one. */
  lemma RawTail(head: nat, items: nat, size: nat)
    requires head < size <= MAX_SIZE && items <= size
    ensures var tail := Wrap16(head + items); (if tail >= size then tail - size else tail) == Ring(head, items, size)
  {
  }

  lemma NoWrap(x: nat)
    requires x < U16
    ensures Wrap16(x) == x
  {
  }

  /** An append puts the item behind the others, and disturbs none of them. */
  ghost predicate AppendsRight(b: seq<byte>, head: nat, items: nat, item: byte)
    requires head < |b| < U16 && items < |b|
  {
    Window(Appended(b, head, items, item), head, items + 1) == Window(b, head, items) + [item]
  }

  function Blank(n: nat): (b: seq<byte>)
    ensures |b| == n && forall i :: 0 <= i < n ==> b[i] == 0
  {
    seq(n, _ => 0)
  }

  /** The ring behaves as a queue in every state if and only if its size is at most 32768. */
  lemma AppendIsFifo(size: nat)
    requires 1 <= size < U16
    ensures (forall b, head: nat, items: nat, item :: |b| == size && head < size && items < size ==>
               AppendsRight(b, head, items, item))
            <==> size <= MAX_SIZE
  {
    hide Window;
    if size <= MAX_SIZE {
      forall b, head: nat, items: nat, item | |b| == size && head < size && items < size
        ensures AppendsRight(b, head, items, item)
      {
        WindowAppend(b, Appended(b, head, items, item), head, items, [item]);
      }
    } else {
      Misplaced(size);
    }
  }

  /** In a larger ring the position wraps too early, over an item that is still there. */
  lemma Misplaced(size: nat)
    requires MAX_SIZE < size < U16
    ensures var items := U16 + 1 - size; items < size && !AppendsRight(Blank(size), size - 1, items, 1)
  {
    hide Window;
    var b, head, items := Blank(size), size - 1, U16 + 1 - size;
    var after := Window(Appended(b, head, items, 1), head, items + 1);
    assert after[items] == 0;
    assert (Window(b, head, items) + [1])[items] == 1;
  }

  class Queue {
    var numItems: nat
    var head: nat
    var size: nat
    const buff: array<byte>

    ghost predicate Valid()
      reads this
    {
      1 <= size == buff.Length <= MAX_SIZE && head < size && numItems <= size
    }

    ghost function Contents(): (s: seq<byte>)
      requires Valid()
      reads this, buff
      ensures |s| == numItems
    {
      Window(buff[..], head, numItems)
    }

    constructor (buff: array<byte>)
      requires 1 <= buff.Length <= MAX_SIZE
      ensures Valid() && this.buff == buff && Contents() == [] && head == 0
    {
      this.buff := buff;
      size := buff.Length;
      numItems := 0;
      head := 0;
    }

    method Clear()
      requires Valid()
      modifies this
      ensures Valid() && Contents() == [] && size == old(size) && head == 0
    {
      numItems := 0;
      head := 0;
    }

    method NumItems() returns (n: nat)
      requires Valid()
      ensures n == |Contents()|
    {
      n := numItems;
    }

    method NumAvailable() returns (n: nat)
      requires Valid()
      ensures n == size - |Contents()|
    {
      n := Wrap16(size - numItems);
    }

    /** Where the next item goes. */
    method Tail() returns (tail: nat)
      requires Valid()
      ensures tail < size
      ensures tail == Ring(head, numItems, size)
    {
      tail := Wrap16(head + numItems);
      if tail >= size { tail := tail - size; }
    }

    method Append(item: byte) returns (ok: bool)
      requires Valid()
      modifies this, buff
      ensures Valid() && size == old(size)
      ensures ok <==> |old(Contents())| < size
      ensures Contents() == (if ok then old(Contents()) + [item] else old(Contents())) && head == old(head)
      ensures ok ==> buff[..] == Appended(old(buff[..]), head, old(numItems), item)
    {
      hide Window, Wrap16;
      var tail := Tail();
      RawTail(head, numItems, size);
      if numItems < size {
        NoWrap(numItems + 1);
        numItems := Wrap16(numItems + 1);
      } else {
        return false;
      }
      buff[tail] := item;
      WindowAppend(old(buff[..]), buff[..], head, old(numItems), [item]);
      return true;
    }

    method Get() returns (ok: bool, item: byte)
      requires Valid()
      modifies this
      ensures Valid() && size == old(size)
      ensures ok <==> old(Contents()) != []
      ensures ok ==> old(Contents()) == [item] + Contents()
      ensures !ok ==> Contents() == old(Contents())
      ensures head == if ok then Ring(old(head), 1, size) else old(head)
    {
      hide Window;
      item := 0;
      if numItems == 0 { return false, item; }
      WindowFirst(buff[..], head, numItems);
      item := buff[head];
      head := Wrap16(head + 1);
      if head >= size { head := 0; }
      numItems := numItems - 1;
      return true, item;
    }

    /** All of `data` goes in, or nothing. */
    method Enqueue(data: seq<byte>) returns (n: nat)
      requires Valid() && |data| < U16
      modifies this, buff
      ensures Valid() && size == old(size)
      ensures n == if |data| <= size - |old(Contents())| then |data| else 0
      ensures Contents() == old(Contents()) + data[..n] && head == old(head)
    {
      hide Window, Offset;
      n := |data|;
      if n <= size - numItems {
        var tail := Tail();
        CopyWrapped(tail, data);
        WindowEnqueue(old(buff[..]), buff[..], head, numItems, data);
        numItems := Wrap16(numItems + n);
      } else {
        n := 0;
      }
    }

    /** Copy from `tail` on, continuing at the front of the buffer when its end is reached. */
    method CopyWrapped(tail: nat, data: seq<byte>)
      requires Valid() && tail < size && |data| <= size
      modifies buff
      ensures forall p :: 0 <= p < buff.Length ==>
                buff[p] == var d := Offset(tail, p, size); if d < |data| then data[d] else old(buff[p])
    {
      var temp := Wrap16(size - tail);
      if |data| < temp {
        CopyIn(tail, data);
      } else {
        CopyIn(tail, data[..temp]);
        CopyIn(0, data[temp..]);
      }
    }

    method CopyIn(at: nat, data: seq<byte>)
      requires at + |data| <= buff.Length
      modifies buff
      ensures forall k :: 0 <= k < buff.Length ==>
                buff[k] == if at <= k < at + |data| then data[k - at] else old(buff[k])
    {
      for i := 0 to |data|
        invariant forall k :: 0 <= k < buff.Length ==>
                    buff[k] == if at <= k < at + i then data[k - at] else old(buff[k])
      {
        buff[at + i] := data[i];
      }
    }

    /** How many of the next `limit` items lie in the buffer without wrapping. */
    ghost function Straight(limit: nat): (n: nat)
      requires Valid()
      reads this
    {
      var n := if limit > numItems then numItems else limit;
      if n > size - head then size - head else n
    }

    method PeekConsequent(limit: nat) returns (data: seq<byte>)
      requires Valid() && limit < U16
      ensures |data| == Straight(limit) && data == Contents()[..|data|]
    {
      hide Window, Wrap16;
      NoWrap(head + numItems);
      NoWrap(size - head);
      var n := limit;
      if n > numItems { n := numItems; }
      var tail := Wrap16(head + numItems);
      if tail > size {
        var temp := Wrap16(size - head);
        if n > temp { n := temp; }
      }
      data := buff[head..head + n];
      WindowStraight(buff[..], head, numItems, n);
      assert buff[..][head..head + n] == data;
    }

    /** The same without copying: a position in the buffer and a length. */
    method PeekNoncopy() returns (n: nat, at: nat)
      requires Valid()
      ensures at == head && at + n <= buff.Length && n == Straight(U16)
      ensures buff[at..at + n] == Contents()[..n]
    {
      hide Window, Wrap16;
      NoWrap(head + numItems);
      NoWrap(size - head);
      var tail := Wrap16(head + numItems);
      if tail > size {
        n := Wrap16(size - head);
      } else {
        n := numItems;
      }
      at := head;
      WindowStraight(buff[..], head, numItems, n);
      assert buff[..][head..head + n] == buff[head..head + n];
    }

    method Release(count: nat) returns (n: nat)
      requires Valid() && count < U16
      modifies this
      ensures Valid() && size == old(size)
      ensures n == if count > |old(Contents())| then |old(Contents())| else count
      ensures Contents() == old(Contents())[n..] && head == Ring(old(head), n, size)
    {
      hide Window, Wrap16;
      n := count;
      if n > numItems { n := numItems; }
      NoWrap(head + n);
      WindowDrop(buff[..], head, numItems, n);
      head := Wrap16(head + n);
      if head >= size { head := head - size; }
      numItems := numItems - n;
    }

    /** Two rounds of peek and release take out everything, in order. */
    method Drain() returns (data: seq<byte>)
      requires Valid()
      modifies this
      ensures Valid() && size == old(size)
      ensures data == old(Contents()) && Contents() == []
    {
      hide Window;
      var n, at := PeekNoncopy();
      var first := buff[at..at + n];
      var released := Release(n);
      assert old(Contents()) == first + Contents();
      n, at := PeekNoncopy();
      data := first + buff[at..at + n];
      released := Release(n);
    }
  }

  // ---- Whole runs ----

  datatype Op =
    | DoClear
    | DoAppend(item: byte)
    | DoGet
    | DoEnqueue(data: seq<byte>)
    | DoPeek(limit: nat)
    | DoPeekNoncopy
    | DoRelease(count: nat)

  /** What an operation tells its caller. */
  datatype Answer = Nothing | Taken(ok: bool) | NoItem | Item(item: byte) | Number(n: nat) | Bytes(data: seq<byte>)

  /** A first-in first-out sequence, and where in the ring it starts. */
  datatype Fifo = Fifo(start: nat, items: seq<byte>)

  function Min(a: nat, b: nat): nat { if a < b then a else b }

  function After(f: Fifo, size: nat, op: Op): (g: Fifo)
    requires f.start < size && |f.items| <= size
    ensures g.start < size && |g.items| <= size
  {
    match op
    case DoClear => Fifo(0, [])
    case DoAppend(x) => if |f.items| < size then f.(items := f.items + [x]) else f
    case DoGet => if f.items == [] then f else Fifo(Ring(f.start, 1, size), f.items[1..])
    case DoEnqueue(d) => if |d| <= size - |f.items| then f.(items := f.items + d) else f
    case DoRelease(n) => var k := Min(n, |f.items|); Fifo(Ring(f.start, k, size), f.items[k..])
    case DoPeek(_) => f
    case DoPeekNoncopy => f
  }

  /** The value each operation returns; a peek stops where the ring wraps. */
  function Reply(f: Fifo, size: nat, op: Op): Answer
    requires f.start < size && |f.items| <= size
  {
    match op
    case DoClear => Nothing
    case DoAppend(_) => Taken(|f.items| < size)
    case DoGet => if f.items == [] then NoItem else Item(f.items[0])
    case DoEnqueue(d) => Number(if |d| <= size - |f.items| then |d| else 0)
    case DoRelease(n) => Number(Min(n, |f.items|))
    case DoPeek(limit) => Bytes(f.items[..Min(Min(limit, |f.items|), size - f.start)])
    case DoPeekNoncopy => Bytes(f.items[..Min(|f.items|, size - f.start)])
  }

  function FifoRun(size: nat, ops: seq<Op>): (f: Fifo)
    requires size >= 1
    ensures f.start < size && |f.items| <= size
  {
    if ops == [] then Fifo(0, []) else After(FifoRun(size, ops[..|ops| - 1]), size, ops[|ops| - 1])
  }

  /** Counts and lengths that fit the sixteen-bit parameters. */
  predicate Passable(op: Op) {
    match op
    case DoEnqueue(d) => |d| < U16
    case DoPeek(limit) => limit < U16
    case DoRelease(n) => n < U16
    case _ => true
  }

  method Do(q: Queue, op: Op, ghost f: Fifo) returns (r: Answer)
    requires q.Valid() && Passable(op) && q.head == f.start && q.Contents() == f.items
    modifies q, q.buff
    ensures q.Valid() && q.size == old(q.size)
    ensures f.start < q.size && |f.items| <= q.size && r == Reply(f, q.size, op)
    ensures var g := After(f, q.size, op); q.head == g.start && q.Contents() == g.items
  {
    hide Window;
    match op {
      case DoClear =>
        q.Clear();
        r := Nothing;
      case DoAppend(x) =>
        var ok := q.Append(x);
        r := Taken(ok);
      case DoGet =>
        var ok, item := q.Get();
        r := if ok then Item(item) else NoItem;
      case DoEnqueue(d) =>
        var n := q.Enqueue(d);
        r := Number(n);
      case DoPeek(limit) =>
        var data := q.PeekConsequent(limit);
        r := Bytes(data);
      case DoPeekNoncopy =>
        var n, at := q.PeekNoncopy();
        r := Bytes(q.buff[at..at + n]);
      case DoRelease(count) =>
        var n := q.Release(count);
        r := Number(n);
    }
  }

  lemma NextFifo(size: nat, ops: seq<Op>, i: nat)
    requires size >= 1 && i < |ops|
    ensures FifoRun(size, ops[..i + 1]) == After(FifoRun(size, ops[..i]), size, ops[i])
  {
    hide After;
    assert ops[..i + 1][..i] == ops[..i];
  }

  lemma NoFifo(size: nat)
    requires size >= 1
    ensures FifoRun(size, []) == Fifo(0, [])
  {
  }

  // ---- Rings of any size ----

  /** The ring as values, for any size that fits in sixteen bits. */
  datatype Raw = Raw(buff: seq<byte>, head: nat, items: nat) {
    predicate Ok() { 1 <= |buff| < U16 && head < |buff| && items <= |buff| }
  }

  datatype Put = In(item: byte) | Out

  /** queue_append and queue_get as they are written, with every sum in sixteen bits. */
  function RawStep(r: Raw, op: Put): (t: Raw)
    requires r.Ok()
    ensures t.Ok() && |t.buff| == |r.buff|
  {
    match op
    case In(x) => if r.items < |r.buff| then Raw(Appended(r.buff, r.head, r.items, x), r.head, r.items + 1) else r
    case Out =>
      if r.items == 0 then r
      else r.(head := if r.head + 1 >= |r.buff| then 0 else r.head + 1, items := r.items - 1)
  }

  function RawReply(r: Raw, op: Put): Answer
    requires r.Ok()
  {
    match op
    case In(_) => Taken(r.items < |r.buff|)
    case Out => if r.items == 0 then NoItem else Item(r.buff[r.head])
  }

  function RawRun(size: nat, ops: seq<Put>): (r: Raw)
    requires 1 <= size < U16
    ensures r.Ok() && |r.buff| == size
  {
    if ops == [] then Raw(Blank(size), 0, 0) else RawStep(RawRun(size, ops[..|ops| - 1]), ops[|ops| - 1])
  }

  function AsOp(op: Put): Op { match op case In(x) => DoAppend(x) case Out => DoGet }

  function AsOps(ops: seq<Put>): (r: seq<Op>)
    ensures |r| == |ops| && forall i :: 0 <= i < |ops| ==> r[i] == AsOp(ops[i])
  {
    seq(|ops|, i requires 0 <= i < |ops| => AsOp(ops[i]))
  }

  /** After this run the ring answers the next operation as the bounded FIFO does. */
  predicate AnswersRight(size: nat, ops: seq<Put>, op: Put)
    requires 1 <= size < U16
  {
    RawReply(RawRun(size, ops), op) == Reply(FifoRun(size, AsOps(ops)), size, AsOp(op))
  }

  /** The ring is a queue, as far as any caller can see. */
  ghost predicate IsQueue(size: nat)
    requires 1 <= size < U16
  {
    forall ops, op :: AnswersRight(size, ops, op)
  }

  /** The raw ring holds what the FIFO holds. */
  ghost predicate Mirrors(r: Raw, f: Fifo) {
    r.Ok() && r.head == f.start && Window(r.buff, r.head, r.items) == f.items
  }

  lemma StepMirrors(r: Raw, f: Fifo, op: Put)
    requires Mirrors(r, f) && |r.buff| <= MAX_SIZE
    ensures Mirrors(RawStep(r, op), After(f, |r.buff|, AsOp(op))) && RawReply(r, op) == Reply(f, |r.buff|, AsOp(op))
  {
    hide Window, Wrap16;
    match op
    case In(x) =>
      if r.items < |r.buff| {
        RawTail(r.head, r.items, |r.buff|);
        WindowAppend(r.buff, Appended(r.buff, r.head, r.items, x), r.head, r.items, [x]);
      }
    case Out =>
      if r.items > 0 { WindowFirst(r.buff, r.head, r.items); }
  }

  lemma {:induction false} RunMirrors(size: nat, ops: seq<Put>)
    requires 1 <= size <= MAX_SIZE
    ensures Mirrors(RawRun(size, ops), FifoRun(size, AsOps(ops)))
  {
    hide RawStep, After;
    if ops == [] {
      NoFifo(size);
    } else {
      var n := |ops| - 1;
      RunMirrors(size, ops[..n]);
      FifoOfLast(size, ops);
      StepMirrors(RawRun(size, ops[..n]), FifoRun(size, AsOps(ops[..n])), ops[n]);
    }
  }

  lemma FifoOfLast(size: nat, ops: seq<Put>)
    requires size >= 1 && ops != []
    ensures var n := |ops| - 1; FifoRun(size, AsOps(ops)) == After(FifoRun(size, AsOps(ops[..n])), size, AsOp(ops[n]))
  {
    hide After;
    var n := |ops| - 1;
    assert AsOps(ops)[..n] == AsOps(ops[..n]);
  }

  lemma RawNext(size: nat, ops: seq<Put>, op: Put)
    requires 1 <= size < U16
    ensures RawRun(size, ops + [op]) == RawStep(RawRun(size, ops), op)
    ensures FifoRun(size, AsOps(ops + [op])) == After(FifoRun(size, AsOps(ops)), size, AsOp(op))
  {
    hide RawStep, After;
    var all := ops + [op];
    assert all[..|ops|] == ops && all[|ops|] == op;
    FifoOfLast(size, all);
  }

  /** `n` appends of a zero, each followed by a get. */
  function Laps(n: nat): seq<Put> { if n == 0 then [] else Laps(n - 1) + [In(0)] + [Out] }

  /** Then `m` appends of a zero. */
  function Filled(n: nat, m: nat): seq<Put> { if m == 0 then Laps(n) else Filled(n, m - 1) + [In(0)] }

  lemma {:induction false} ZerosStay(size: nat, head: nat, items: nat)
    requires head < size < U16 && items < size
    ensures Appended(Blank(size), head, items, 0) == Blank(size)
  {
  }

  lemma {:induction false} LapsTurn(size: nat, n: nat)
    requires 1 < size < U16 && n < size
    ensures RawRun(size, Laps(n)) == Raw(Blank(size), n, 0) && FifoRun(size, AsOps(Laps(n))) == Fifo(n, [])
  {
    hide Blank, RawStep, After, RawRun, FifoRun, AsOps;
    if n == 0 {
      NoLaps(size);
    } else {
      LapsTurn(size, n - 1);
      RawNext(size, Laps(n - 1), In(0));
      RawNext(size, Laps(n - 1) + [In(0)], Out);
      OneLap(size, n - 1);
    }
  }

  lemma NoLaps(size: nat)
    requires 1 <= size < U16
    ensures RawRun(size, []) == Raw(Blank(size), 0, 0) && FifoRun(size, AsOps([])) == Fifo(0, [])
  {
    NoFifo(size);
  }

  lemma OneLap(size: nat, h: nat)
    requires h + 1 < size < U16
    ensures RawStep(RawStep(Raw(Blank(size), h, 0), In(0)), Out) == Raw(Blank(size), h + 1, 0)
    ensures After(After(Fifo(h, []), size, DoAppend(0)), size, DoGet) == Fifo(h + 1, [])
  {
    hide Blank, Appended;
    ZerosStay(size, h, 0);
  }

  function Zeros(m: nat): (z: seq<byte>)
    ensures |z| == m && forall i :: 0 <= i < m ==> z[i] == 0
  {
    if m == 0 then [] else Zeros(m - 1) + [0]
  }

  lemma {:induction false} FilledUp(size: nat, n: nat, m: nat)
    requires 1 < size < U16 && n < size && m <= size
    ensures RawRun(size, Filled(n, m)) == Raw(Blank(size), n, m)
    ensures FifoRun(size, AsOps(Filled(n, m))) == Fifo(n, Zeros(m))
  {
    hide Blank, Appended;
    if m == 0 {
      LapsTurn(size, n);
    } else {
      FilledUp(size, n, m - 1);
      RawNext(size, Filled(n, m - 1), In(0));
      ZerosStay(size, n, m - 1);
    }
  }

  /** The run after which a larger ring gives out the newest item where an older one is due. */
  function BadRun(size: nat): seq<Put>
    requires 1 <= size < U16
  {
    Filled(size - 1, U16 + 1 - size) + [In(1)] + [Out]
  }

  lemma BadRunFails(size: nat)
    requires MAX_SIZE < size < U16
    ensures !AnswersRight(size, BadRun(size), Out)
  {
    hide Filled, RawRun, FifoRun, AsOps, Blank;
    var m := U16 + 1 - size;
    FilledUp(size, size - 1, m);
    RawNext(size, Filled(size - 1, m), In(1));
    RawNext(size, Filled(size - 1, m) + [In(1)], Out);
    Overwritten(size);
    assert (Zeros(m) + [1])[1..][0] == 0;
  }

  lemma Overwritten(size: nat)
    requires MAX_SIZE < size < U16
    ensures Appended(Blank(size), size - 1, U16 + 1 - size, 1)[0] == 1
  {
  }

  /** In every run the ring answers as a queue if and only if its size is at most 32768. */
  lemma QueueExactly(size: nat)
    requires 1 <= size < U16
    ensures IsQueue(size) <==> size <= MAX_SIZE
  {
    hide AnswersRight;
    if size <= MAX_SIZE {
      forall ops, op
        ensures AnswersRight(size, ops, op)
      {
        AnswersLikeFifo(size, ops, op);
      }
    } else {
      BadRunFails(size);
    }
  }

  lemma AnswersLikeFifo(size: nat, ops: seq<Put>, op: Put)
    requires 1 <= size <= MAX_SIZE
    ensures AnswersRight(size, ops, op)
  {
    hide RawReply, Reply;
    RunMirrors(size, ops);
    StepMirrors(RawRun(size, ops), FifoRun(size, AsOps(ops)), op);
  }

  // ---- The class in whole runs ----

  /**
   * After any mix of operations the ring holds what the bounded FIFO holds, and every operation returned
   * what it should.
   */
  method RunAll(size: nat, ops: seq<Op>) returns (contents: seq<byte>, replies: seq<Answer>)
    requires 1 <= size <= MAX_SIZE && forall i :: 0 <= i < |ops| ==> Passable(ops[i])
    ensures contents == FifoRun(size, ops).items
    ensures |replies| == |ops| && forall i :: 0 <= i < |ops| ==>
            replies[i] == Reply(FifoRun(size, ops[..i]), size, ops[i])
  {
    hide Window, Reply, After, FifoRun;
    var buff := new byte[size](_ => 0);
    var q := new Queue(buff);
    var i := 0;
    replies := [];
    assert ops[..0] == [];
    NoFifo(size);
    while i < |ops|
      invariant 0 <= i <= |ops| && fresh(q) && fresh(q.buff) && q.Valid() && q.size == size
      invariant q.head == FifoRun(size, ops[..i]).start && q.Contents() == FifoRun(size, ops[..i]).items
      invariant |replies| == i && forall k :: 0 <= k < i ==> replies[k] == Reply(FifoRun(size, ops[..k]), size, ops[k])
    {
      NextFifo(size, ops, i);
      var r := Do(q, ops[i], FifoRun(size, ops[..i]));
      replies := replies + [r];
      i := i + 1;
    }
    assert ops[..|ops|] == ops;
    contents := q.Drain();
  }
}
