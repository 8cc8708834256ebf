/** The fixed-size element pool: elements carved from blocks, recycled through a list threaded through them. */
module Pool {

  /** Bytes of a link: the size of `struct pool_freed`. */
  const LINK_BYTES: nat := 8

  // ---- Memory ----

  /** What a byte of memory holds: a client's data, or the byte `at` of the eight bytes of a stored pointer. */
  datatype Cell = Data(value: nat) | Part(link: nat, at: nat)

  type Memory = map<nat, Cell>

  /** Storing some bytes from address `p` on. */
  function Write(m: Memory, p: nat, cells: seq<Cell>): (r: Memory)
    ensures forall x :: p <= x < p + |cells| ==> x in r && r[x] == cells[x - p]
    ensures Unchanged(m, r, p, |cells|)
  {
    var n := |cells| - 1;
    if n < 0 then m else Write(m, p, cells[..n])[p + n := cells[n]]
  }

  /** Only the `n` bytes from `p` on may differ. */
  predicate Unchanged(m: Memory, r: Memory, p: nat, n: nat) {
    && (forall x :: x in m && !(p <= x < p + n) ==> x in r && r[x] == m[x])
    && (forall x :: x in r && !(p <= x < p + n) ==> x in m)
  }

  /** The eight bytes of a pointer. */
  function LinkCells(link: nat): (r: seq<Cell>)
    ensures |r| == 8 && forall i :: 0 <= i < 8 ==> r[i] == Part(link, i)
  {
    seq(8, i requires 0 <= i < 8 => Part(link, i))
  }

  /** The eight bytes at `p` are those of this pointer. */
  predicate Linked(m: Memory, p: nat, link: nat) {
    forall x :: p <= x < p + 8 ==> x in m && m[x] == Part(link, x - p)
  }

  predicate CanLoad(m: Memory, p: nat) {
    p in m && m[p].Part? && Linked(m, p, m[p].link)
  }

  function Load(m: Memory, p: nat): nat
    requires CanLoad(m, p)
  {
    m[p].link
  }

  lemma LinkStored(m: Memory, p: nat, link: nat)
    ensures CanLoad(Write(m, p, LinkCells(link)), p) && Load(Write(m, p, LinkCells(link)), p) == link
  {
    assert Linked(Write(m, p, LinkCells(link)), p, link);
  }

  lemma LinkKept(m: Memory, r: Memory, p: nat, n: nat, q: nat)
    requires Unchanged(m, r, p, n) && CanLoad(m, q) && (p + n <= q || q + 8 <= p)
    ensures CanLoad(r, q) && Load(r, q) == Load(m, q)
  {
    assert forall x :: q <= x < q + 8 ==> x in m && !(p <= x < p + n);
  }

  /** Address of element `i` of block `b`. */
  function Addr(blocks: seq<nat>, e: nat, b: nat, i: nat): (p: nat)
    requires b < |blocks|
    ensures p >= blocks[b]
  {
    blocks[b] + i * e
  }

  /** Carving order: whole blocks before `block`, then the elements of `block` up to `used`. */
  predicate Reached(block: int, used: nat, b: nat, i: nat) {
    b < block || (b == block && i <= used)
  }

  ghost function CarvedSet(blocks: seq<nat>, e: nat, n: nat, block: int, used: nat): set<nat> {
    set b, i | 0 <= b < |blocks| && 0 <= i < n && Reached(block, used, b, i) :: Addr(blocks, e, b, i)
  }

  function BlockBytes(e: nat, n: nat): nat { e * n }

  /** How many elements have been carved. */
  function Count(block: int, n: nat, used: nat): int { block * n + used + 1 }

  function Max(a: nat, b: nat): nat { if a > b then a else b }

  ghost predicate Apart(x: nat, y: nat, bytes: nat) {
    x + bytes <= y || y + bytes <= x
  }

  /** The first `made` entries are distinct, non-overlapping memory of `bytes` bytes each; the rest are NULL. */
  ghost predicate BlocksOk(blocks: seq<nat>, made: nat, bytes: nat) {
    && made <= |blocks|
    && (forall i :: 0 <= i < |blocks| ==> (blocks[i] != 0 <==> i < made))
    && (forall i, j :: 0 <= i < made && 0 <= j < made && i != j ==> Apart(blocks[i], blocks[j], bytes))
  }

  /** The intrusive list from `first` runs through exactly the nodes of `list`, each once, and ends in NULL. */
  ghost predicate Chain(first: nat, mem: Memory, list: seq<nat>)
    decreases |list|
  {
    if list == [] then first == 0
    else first == list[0] && first != 0 && CanLoad(mem, first) && first !in list[1..]
         && Chain(Load(mem, first), mem, list[1..])
  }

  ghost function Elems(list: seq<nat>): set<nat> {
    set x | x in list
  }

  // ---- Arithmetic of elements ----

  lemma {:induction false} ElementInBlock(e: nat, n: nat, i: nat)
    requires i < n
    ensures i * e + e <= e * n
  {
    if i + 1 == n {
      assert e * n == (i + 1) * e == i * e + e;
    } else {
      ElementInBlock(e, n - 1, i);
      assert e * n == e * (n - 1) + e;
    }
  }

  lemma ElementsInOrder(e: nat, i: nat, j: nat)
    requires i < j
    ensures i * e + e <= j * e
  {
    ElementInBlock(e, j, i);
  }

  /** Different carved elements never overlap. */
  lemma ElementsApart(blocks: seq<nat>, made: nat, e: nat, n: nat, b: nat, i: nat, c: nat, j: nat)
    requires BlocksOk(blocks, made, BlockBytes(e, n)) && b < made && c < made && i < n && j < n && (b != c || i != j)
    ensures Apart(Addr(blocks, e, b, i), Addr(blocks, e, c, j), e)
  {
    ElementInBlock(e, n, i);
    ElementInBlock(e, n, j);
    if b == c {
      if i < j { ElementsInOrder(e, i, j); } else { ElementsInOrder(e, j, i); }
    } else {
      assert Apart(blocks[b], blocks[c], BlockBytes(e, n));
    }
  }

  // ---- Carving one more element ----

  lemma CarveInBlock(blocks: seq<nat>, made: nat, e: nat, n: nat, block: nat, used: nat)
    requires BlocksOk(blocks, made, BlockBytes(e, n)) && block < made && used + 1 < n && e > 0
    ensures Addr(blocks, e, block, used + 1) !in CarvedSet(blocks, e, n, block, used)
    ensures CarvedSet(blocks, e, n, block, used + 1) ==
            CarvedSet(blocks, e, n, block, used) + {Addr(blocks, e, block, used + 1)}
  {
    var x := Addr(blocks, e, block, used + 1);
    var s, t := CarvedSet(blocks, e, n, block, used), CarvedSet(blocks, e, n, block, used + 1);
    if x in s {
      var b, i :| 0 <= b < |blocks| && 0 <= i < n && Reached(block, used, b, i) && x == Addr(blocks, e, b, i);
      ElementsApart(blocks, made, e, n, b, i, block, used + 1);
      assert false;
    }
    forall y | y in t
      ensures y in s + {x}
    {
      var b, i :| 0 <= b < |blocks| && 0 <= i < n && Reached(block, used + 1, b, i) && y == Addr(blocks, e, b, i);
      assert Reached(block, used, b, i) || (b == block && i == used + 1);
    }
    forall y | y in s + {x}
      ensures y in t
    {
      if y in s {
        var b, i :| 0 <= b < |blocks| && 0 <= i < n && Reached(block, used, b, i) && y == Addr(blocks, e, b, i);
        assert Reached(block, used + 1, b, i);
      } else {
        assert Reached(block, used + 1, block, used + 1);
      }
    }
  }

  lemma CarveNewBlock(blocks: seq<nat>, blocks': seq<nat>, made: nat, e: nat, n: nat, block: int)
    requires BlocksOk(blocks', made, BlockBytes(e, n)) && e > 0 && n > 0
    requires -1 <= block && block + 1 < made && block < |blocks| <= |blocks'|
    requires forall b :: 0 <= b <= block ==> blocks'[b] == blocks[b]
    ensures Addr(blocks', e, block + 1, 0) !in CarvedSet(blocks, e, n, block, n - 1)
    ensures CarvedSet(blocks', e, n, block + 1, 0) ==
            CarvedSet(blocks, e, n, block, n - 1) + {Addr(blocks', e, block + 1, 0)}
  {
    var x := Addr(blocks', e, block + 1, 0);
    var s, t := CarvedSet(blocks, e, n, block, n - 1), CarvedSet(blocks', e, n, block + 1, 0);
    if x in s {
      var b, i :| 0 <= b < |blocks| && 0 <= i < n && Reached(block, n - 1, b, i) && x == Addr(blocks, e, b, i);
      ElementsApart(blocks', made, e, n, b, i, block + 1, 0);
      assert false;
    }
    forall y | y in t
      ensures y in s + {x}
    {
      var b, i :| 0 <= b < |blocks'| && 0 <= i < n && Reached(block + 1, 0, b, i) && y == Addr(blocks', e, b, i);
      if b <= block {
        assert Reached(block, n - 1, b, i) && y == Addr(blocks, e, b, i);
      }
    }
    forall y | y in s + {x}
      ensures y in t
    {
      if y in s {
        var b, i :| 0 <= b < |blocks| && 0 <= i < n && Reached(block, n - 1, b, i) && y == Addr(blocks, e, b, i);
        assert Reached(block + 1, 0, b, i) && y == Addr(blocks', e, b, i);
      } else {
        assert Reached(block + 1, 0, block + 1, 0);
      }
    }
  }

  // ---- The free list ----

  /** A write that touches no link of the list does not touch the list. */
  lemma {:induction false} ChainFrame(first: nat, mem: Memory, list: seq<nat>, mem': Memory, p: nat, n: nat)
    requires Chain(first, mem, list) && Unchanged(mem, mem', p, n)
    requires forall q :: q in list ==> p + n <= q || q + 8 <= p
    ensures Chain(first, mem', list)
    decreases |list|
  {
    hide Unchanged, CanLoad, Load;
    if list != [] {
      assert first in list && forall q :: q in list[1..] ==> q in list;
      LinkKept(mem, mem', p, n, first);
      ChainFrame(Load(mem, first), mem, list[1..], mem', p, n);
    }
  }

  lemma ChainPush(first: nat, mem: Memory, list: seq<nat>, p: nat)
    requires Chain(first, mem, list) && p !in list && p != 0 && forall q :: q in list ==> Apart(p, q, 8)
    ensures Chain(p, Write(mem, p, LinkCells(first)), [p] + list)
    ensures Elems([p] + list) == Elems(list) + {p}
  {
    hide CanLoad, Load, Unchanged;
    ChainFrame(first, mem, list, Write(mem, p, LinkCells(first)), p, 8);
    LinkStored(mem, p, first);
    assert ([p] + list)[1..] == list;
  }

  lemma ChainPop(first: nat, mem: Memory, list: seq<nat>)
    requires Chain(first, mem, list) && first != 0
    ensures list != [] && first == list[0] && CanLoad(mem, first) && first !in list[1..]
    ensures Chain(Load(mem, first), mem, list[1..])
    ensures Elems(list[1..]) == Elems(list) - {first}
  {
    assert list == [first] + list[1..];
  }

  // ---- The pool as a value ----

  /** `live`, `free`, `carved`, `peak` and `made` are the client's view and history; see the class below. */
  datatype View = View(e: nat, n: nat, used: nat, block: int, freed: nat, blocks: seq<nat>, mem: Memory,
                       heap: set<nat>, live: set<nat>, free: seq<nat>, carved: set<nat>, peak: nat, made: nat)

  ghost function BlockSet(blocks: seq<nat>, from: nat, made: nat): set<nat> {
    set i | from <= i < made && made <= |blocks| :: blocks[i]
  }

  ghost predicate Shape(e: nat, n: nat, used: nat, block: int, blocks: seq<nat>, heap: set<nat>, made: nat) {
    && e >= LINK_BYTES && n >= 1 && |blocks| >= 1
    && -1 <= block < made && 0 <= used < n && (block == -1 ==> used == n - 1)
    && BlocksOk(blocks, made, BlockBytes(e, n))
    && heap == BlockSet(blocks, 0, made)
  }

  ghost predicate Shaped(v: View) {
    Shape(v.e, v.n, v.used, v.block, v.blocks, v.heap, v.made)
  }

  /**
   The free list holds exactly the carved elements that are not live, and the number carved since the last reset
   is the largest number that was ever live at once.
   */
  ghost predicate Ledger(v: View) {
    && v.carved == CarvedSet(v.blocks, v.e, v.n, v.block, v.used)
    && |v.carved| == Count(v.block, v.n, v.used) == v.peak
    && Chain(v.freed, v.mem, v.free)
    && v.live !! Elems(v.free)
    && v.carved == v.live + Elems(v.free)
  }

  ghost predicate Good(v: View) {
    Shaped(v) && Ledger(v)
  }

  lemma CountNext(block: int, n: nat, used: nat)
    ensures Count(block, n, used + 1) == Count(block, n, used) + 1
    ensures n >= 1 ==> Count(block + 1, n, 0) == Count(block, n, n - 1) + 1
    ensures n >= 1 ==> Count(-1, n, n - 1) == 0
  {
    assert (block + 1) * n == block * n + n;
  }

  lemma SubsetSize(a: set<nat>, b: set<nat>)
    requires a <= b
    ensures |a| <= |b|
  {
    assert b == a + (b - a);
  }

  lemma Recycled(v: View)
    requires Good(v) && v.freed != 0
    ensures CanLoad(v.mem, v.freed) && v.free != [] && v.freed in v.carved && v.freed !in v.live
    ensures var live := v.live + {v.freed};
            Good(v.(freed := Load(v.mem, v.freed), live := live, free := v.free[1..])) && Max(v.peak, |live|) == v.peak
  {
    hide CarvedSet, Count, Shape, Chain;
    ChainPop(v.freed, v.mem, v.free);
    assert v.freed in Elems(v.free);
    var live := v.live + {v.freed};
    assert v.carved == live + Elems(v.free[1..]);
    SubsetSize(live, v.carved);
  }

  /** Adding a carved element that goes straight to the client. */
  lemma Handed(v: View, w: View, p: nat)
    requires Good(v) && v.freed == 0 && p !in v.carved
    requires Shaped(w) && CarvedSet(w.blocks, w.e, w.n, w.block, w.used) == v.carved + {p}
    requires Count(w.block, w.n, w.used) == Count(v.block, v.n, v.used) + 1
    requires w.freed == v.freed && w.mem == v.mem && w.free == v.free
    ensures var live := v.live + {p};
            && Good(w.(live := live, carved := v.carved + {p}, peak := Max(v.peak, |live|)))
            && |live| == v.peak + 1 && p !in v.live
  {
    hide CarvedSet, Count, Shape;
    assert v.free == [] && v.live == v.carved;
  }

  /** The state after stepping inside the current block. */
  lemma SteppedInBlock(v: View)
    requires Good(v) && v.used + 1 < v.n
    ensures v.block >= 0 && Shaped(v.(used := v.used + 1))
    ensures var p := Addr(v.blocks, v.e, v.block, v.used + 1);
            && p != 0 && p !in v.carved
            && CarvedSet(v.blocks, v.e, v.n, v.block, v.used + 1) == v.carved + {p}
    ensures Count(v.block, v.n, v.used + 1) == Count(v.block, v.n, v.used) + 1
  {
    hide Chain, CarvedSet;
    CarveInBlock(v.blocks, v.made, v.e, v.n, v.block, v.used);
    CountNext(v.block, v.n, v.used);
  }

  function Nulls(n: nat): (r: seq<nat>)
    ensures |r| == n && forall i :: 0 <= i < n ==> r[i] == 0
  {
    seq(n, _ => 0)
  }

  /** The block table after it was grown, if full, and the next block was made, if missing. */
  function NextBlocks(blocks: seq<nat>, next: nat, base: nat): (r: seq<nat>)
    requires next <= |blocks| && |blocks| >= 1
    ensures next < |r| && |r| >= |blocks|
  {
    var grown := if next == |blocks| then blocks + Nulls(|blocks|) else blocks;
    if grown[next] == 0 then grown[next := base] else grown
  }

  ghost predicate FreshBlock(v: View, base: nat) {
    base != 0 && forall i :: 0 <= i < |v.blocks| && v.blocks[i] != 0 ==> Apart(v.blocks[i], base, BlockBytes(v.e, v.n))
  }

  ghost function Next(v: View, base: nat): View
    requires -1 <= v.block < |v.blocks| && |v.blocks| >= 1
  {
    var made := v.block + 1 >= v.made;
    v.(used := 0, block := v.block + 1, blocks := NextBlocks(v.blocks, v.block + 1, base),
       made := if made then v.made + 1 else v.made, heap := if made then v.heap + {base} else v.heap)
  }

  lemma SteppedToBlock(v: View, base: nat)
    requires Good(v) && v.used + 1 == v.n && FreshBlock(v, base)
    ensures Shaped(Next(v, base))
    ensures var w := Next(v, base); var p := Addr(w.blocks, w.e, w.block, 0);
            && p != 0 && p !in v.carved
            && CarvedSet(w.blocks, w.e, w.n, w.block, 0) == v.carved + {p}
    ensures Count(v.block + 1, v.n, 0) == Count(v.block, v.n, v.used) + 1
  {
    hide Chain, CarvedSet, BlockBytes, Count, Addr, FreshBlock, NextBlocks, BlockSet;
    var w := Next(v, base);
    NextShape(v, base);
    CarveNewBlock(v.blocks, w.blocks, w.made, v.e, v.n, v.block);
    CountNext(v.block, v.n, v.used);
  }

  lemma HandedInBlock(v: View)
    requires Good(v) && v.freed == 0 && v.used + 1 < v.n
    ensures 0 <= v.block < |v.blocks|
    ensures var p := Addr(v.blocks, v.e, v.block, v.used + 1); var live := v.live + {p};
            && p !in v.live
            && Good(v.(used := v.used + 1, live := live, carved := v.carved + {p}, peak := Max(v.peak, |live|)))
  {
    hide CarvedSet, Count, Shape, Chain, Addr;
    SteppedInBlock(v);
    InRange(v);
    Handed(v, v.(used := v.used + 1), Addr(v.blocks, v.e, v.block, v.used + 1));
  }

  lemma HandedFromNext(v: View, base: nat)
    requires Good(v) && v.freed == 0 && v.used + 1 == v.n && FreshBlock(v, base)
    ensures -1 <= v.block < |v.blocks| && |v.blocks| >= 1
    ensures var w := Next(v, base); var p := Addr(w.blocks, w.e, w.block, 0); var live := v.live + {p};
            && p !in v.live
            && Good(w.(live := live, carved := v.carved + {p}, peak := Max(v.peak, |live|)))
  {
    hide CarvedSet, Count, Shape, Chain, Addr, FreshBlock;
    InRange(v);
    SteppedToBlock(v, base);
    Handed(v, Next(v, base), Addr(Next(v, base).blocks, v.e, v.block + 1, 0));
  }

  lemma NextShape(v: View, base: nat)
    requires Shaped(v) && v.used + 1 == v.n && FreshBlock(v, base)
    ensures Shaped(Next(v, base))
    ensures var w := Next(v, base); forall b :: 0 <= b <= v.block ==> w.blocks[b] == v.blocks[b]
  {
    hide BlockBytes;
    var w := Next(v, base);
    assert v.block + 1 < v.made ==> w.blocks == v.blocks;
    assert forall i :: 0 <= i < v.made ==> w.blocks[i] == v.blocks[i];
    forall i, j | 0 <= i < w.made && 0 <= j < w.made && i != j
      ensures Apart(w.blocks[i], w.blocks[j], BlockBytes(v.e, v.n))
    {
      if i < v.made && j < v.made { assert Apart(v.blocks[i], v.blocks[j], BlockBytes(v.e, v.n)); }
    }
    if v.block + 1 >= v.made {
      assert w.blocks[v.made] == base;
      BlockSetGrows(v.blocks, w.blocks, v.made, base);
    }
  }

  lemma BlockSetGrows(blocks: seq<nat>, blocks': seq<nat>, made: nat, base: nat)
    requires made <= |blocks| <= |blocks'| && made < |blocks'| && blocks'[made] == base
    requires forall i :: 0 <= i < made ==> blocks'[i] == blocks[i]
    ensures BlockSet(blocks', 0, made + 1) == BlockSet(blocks, 0, made) + {base}
  {
    var s, t := BlockSet(blocks, 0, made), BlockSet(blocks', 0, made + 1);
    forall x | x in s + {base}
      ensures x in t
    {
      if x in s {
        var i :| 0 <= i < made && blocks[i] == x;
        assert blocks'[i] == x;
      }
    }
  }

  lemma Freed(v: View, p: nat)
    requires Good(v) && p in v.live
    ensures Good(v.(freed := p, mem := Write(v.mem, p, LinkCells(v.freed)), live := v.live - {p}, free := [p] + v.free))
  {
    hide CarvedSet, Count, Shape, Chain;
    NotNull(v, p);
    assert p !in v.free by { assert p !in Elems(v.free); }
    forall q | q in v.free
      ensures Apart(p, q, 8)
    {
      LinkHasRoom(v, p, q);
    }
    ChainPush(v.freed, v.mem, v.free, p);
    assert v.carved == (v.live - {p}) + Elems([p] + v.free);
  }

  lemma NotNull(v: View, p: nat)
    requires Good(v) && p in v.carved
    ensures p != 0
  {
    hide Chain, Addr, Count, BlockBytes;
    var b, i :| 0 <= b < |v.blocks| && 0 <= i < v.n && Reached(v.block, v.used, b, i) && p == Addr(v.blocks, v.e, b, i);
    assert v.blocks[b] != 0;
  }

  /** Whatever a client writes into the bytes of an element it holds, the free list stays intact. */
  lemma Scribbled(v: View, p: nat, at: nat, cells: seq<Cell>)
    requires Good(v) && p in v.live && at + |cells| <= v.e
    ensures Good(v.(mem := Write(v.mem, p + at, cells)))
  {
    hide CarvedSet, Count, Shape, Chain, Unchanged;
    forall q | q in v.free
      ensures Apart(p, q, v.e) && v.e >= 8
    {
      LinkHasRoom(v, p, q);
    }
    ChainFrame(v.freed, v.mem, v.free, Write(v.mem, p + at, cells), p + at, |cells|);
  }

  /** The eight bytes of a link fit into an element, and none of them belongs to another one, live or free. */
  lemma LinkHasRoom(v: View, p: nat, q: nat)
    requires Good(v) && p in v.live && (q in v.free || (q in v.carved && p != q))
    ensures v.e >= 8 && Apart(p, q, v.e) && Apart(p, q, 8)
  {
    hide Chain, Count;
    assert q in v.free ==> q in Elems(v.free);
    CarvedApart(v, p, q);
  }

  lemma Reset(v: View)
    requires Good(v)
    ensures Good(v.(used := v.n - 1, block := -1, freed := 0, live := {}, free := [], carved := {}, peak := 0))
  {
    hide BlocksOk, BlockSet;
    CountNext(0, v.n, 0);
  }

  lemma FirstView(e: nat, n: nat)
    requires e >= LINK_BYTES && n >= 1
    ensures Good(View(e, n, n - 1, -1, 0, [0], map[], {}, {}, [], {}, 0, 0))
  {
    CountNext(0, n, 0);
  }

  lemma NoElements(v: View)
    requires v.n == 0
    ensures !Good(v)
  {
  }

  /** Live elements never overlap, in any state a run can reach. */
  lemma LiveApart(v: View, p: nat, q: nat)
    requires Good(v) && p in v.live && q in v.live && p != q
    ensures Apart(p, q, v.e)
  {
    hide Chain, Count, CarvedSet, Shape;
    CarvedApart(v, p, q);
  }

  lemma CarvedApart(v: View, p: nat, q: nat)
    requires Good(v) && p in v.carved && q in v.carved && p != q
    ensures Apart(p, q, v.e)
  {
    hide Chain, Count;
    var b, i :| 0 <= b < |v.blocks| && 0 <= i < v.n && Reached(v.block, v.used, b, i) && p == Addr(v.blocks, v.e, b, i);
    var c, j :| 0 <= c < |v.blocks| && 0 <= j < v.n && Reached(v.block, v.used, c, j) && q == Addr(v.blocks, v.e, c, j);
    ElementsApart(v.blocks, v.made, v.e, v.n, b, i, c, j);
  }

  class Pool {
    var elementSize: nat
    var blockSize: nat
    var used: nat
    var block: int
    var freed: nat
    var blocksUsed: nat
    var blocks: seq<nat>
    /** Memory: a link in the first bytes of each free element, client data in live ones. */
    var mem: Memory
    /** Blocks obtained from malloc and not yet freed. */
    var heap: set<nat>
    /** Elements held by the client, the free list, everything carved since the last reset, the peak of |live|,
        and the number of blocks made. */
    ghost var live: set<nat>
    ghost var free: seq<nat>
    ghost var carved: set<nat>
    ghost var peak: nat
    ghost var made: nat

    ghost function Abs(): View
      reads this
    {
      View(elementSize, blockSize, used, block, freed, blocks, mem, heap, live, free, carved, peak, made)
    }

    ghost predicate Valid()
      reads this
    {
      blocksUsed == |blocks| && Good(Abs())
    }

    constructor (elementBytes: nat, blockElements: nat)
      ensures Valid() <==> blockElements >= 1
      ensures live == {} && heap == {} && peak == 0
      ensures elementSize == Max(8, elementBytes) && blockSize == blockElements
    {
      elementSize := Max(LINK_BYTES, elementBytes);
      blockSize := blockElements;
      used, block, freed := if blockElements == 0 then U32 - 1 else blockElements - 1, -1, 0;
      blocksUsed := 1;
      blocks := [0];
      mem, heap := map[], {};
      live, free, carved, peak, made := {}, [], {}, 0, 0;
      new;
      hide Good;
      if blockSize >= 1 { FirstView(elementSize, blockSize); } else { NoElements(Abs()); }
    }

    /** `base` is where malloc would place a block, should one be needed. */
    method Malloc(base: nat) returns (p: nat)
      requires Valid() && FreshBlock(Abs(), base)
      modifies this
      ensures Valid() && elementSize == old(elementSize) && blockSize == old(blockSize)
      ensures p !in old(live) && live == old(live) + {p}
      ensures peak == Max(old(peak), |live|) && mem == old(mem)
    {
      hide Good, FreshBlock, Max;
      if freed != 0 {
        Recycled(Abs());
        p := freed;
        freed := Load(mem, freed);
        live, free := live + {p}, free[1..];
        return;
      }
      InRange(Abs());
      if used + 1 == blockSize {
        p := CarveNext(base);
      } else {
        p := CarveHere();
      }
    }

    /** Take the next element of the current block. */
    method CarveHere() returns (p: nat)
      requires Valid() && freed == 0 && used + 1 < blockSize
      modifies this`used, this`live, this`carved, this`peak
      ensures Valid() && p !in old(live) && live == old(live) + {p} && peak == Max(old(peak), |live|)
    {
      hide Good, Addr, Max;
      HandedInBlock(Abs());
      used := used + 1;
      p := Addr(blocks, elementSize, block, used);
      live, carved := live + {p}, carved + {p};
      peak := Max(peak, |live|);
    }

    /** Take the first element of the next block. */
    method CarveNext(base: nat) returns (p: nat)
      requires Valid() && freed == 0 && used + 1 == blockSize && FreshBlock(Abs(), base)
      modifies this
      ensures Valid() && elementSize == old(elementSize) && blockSize == old(blockSize)
      ensures p !in old(live) && live == old(live) + {p} && peak == Max(old(peak), |live|) && mem == old(mem)
    {
      hide Good, FreshBlock, Addr, Max, NextBlocks, BlockSet;
      ghost var v := Abs();
      InRange(v);
      HandedFromNext(v, base);
      NextBlock(base);
      assert Abs() == Next(v, base);
      p := Addr(blocks, elementSize, block, used);
      live, carved := live + {p}, carved + {p};
      peak := Max(peak, |live|);
    }

    /** Start the next block, growing the block table and making the block where needed. */
    method NextBlock(base: nat)
      requires blocksUsed == |blocks| >= 1 && -1 <= block < |blocks| && made <= |blocks|
      requires block + 1 < |blocks| ==> (blocks[block + 1] == 0 <==> block + 1 >= made)
      requires block + 1 == |blocks| ==> made == |blocks|
      modifies this`used, this`block, this`blocksUsed, this`blocks, this`heap, this`made
      ensures blocksUsed == |blocks| && used == 0 && block == old(block) + 1
      ensures blocks == NextBlocks(old(blocks), block, base)
      ensures made == if block >= old(made) then old(made) + 1 else old(made)
      ensures heap == if block >= old(made) then old(heap) + {base} else old(heap)
    {
      used := 0;
      block := block + 1;
      if block == blocksUsed {
        blocksUsed := 2 * blocksUsed;
        blocks := blocks + Nulls(|blocks|);
      }
      if blocks[block] == 0 {
        blocks := blocks[block := base];
        heap := heap + {base};
        made := made + 1;
      }
    }

    /** Give back a live element; its first eight bytes become the link, and no other byte changes. */
    method Free(p: nat)
      requires Valid() && p in live
      modifies this
      ensures Valid() && live == old(live) - {p} && peak == old(peak)
      ensures Unchanged(old(mem), mem, p, 8)
      ensures elementSize == old(elementSize) && blockSize == old(blockSize)
    {
      hide Good;
      Freed(Abs(), p);
      var first := freed;
      freed := p;
      mem := Write(mem, p, LinkCells(first));
      live, free := live - {p}, [p] + free;
    }

    /** A client writes any bytes of an element it holds. */
    method Scribble(p: nat, at: nat, cells: seq<Cell>)
      requires Valid() && p in live && at + |cells| <= elementSize
      modifies this`mem
      ensures Valid() && mem == Write(old(mem), p + at, cells)
    {
      hide Good;
      Scribbled(Abs(), p, at, cells);
      mem := Write(mem, p + at, cells);
    }

    method FreeAll()
      requires Valid()
      modifies this
      ensures Valid() && live == {} && peak == 0 && heap == old(heap) && mem == old(mem)
      ensures elementSize == old(elementSize) && blockSize == old(blockSize)
    {
      hide Good;
      Reset(Abs());
      InRange(Abs());
      used := blockSize - 1;
      block := -1;
      freed := 0;
      live, free, carved, peak := {}, [], {}, 0;
    }

    /** The free list, found by following the links. */
    method Walk() returns (list: seq<nat>)
      requires Valid()
      ensures list == free
    {
      hide Good, Chain;
      ListIsChain(Abs());
      list := [];
      var p := freed;
      ghost var rest := free;
      while p != 0
        invariant list + rest == free && Chain(p, mem, rest)
        decreases |rest|
      {
        ChainPop(p, mem, rest);
        list := list + [p];
        rest := rest[1..];
        p := Load(mem, p);
      }
      ChainEnds(mem, rest);
    }

    /** Free the blocks up to the first NULL: that is each of them, once. */
    method Deinit() returns (released: seq<nat>)
      requires Valid()
      modifies this`heap
      ensures heap == {} && Elems(released) == old(heap) && NoRepeats(released)
    {
      hide Good, BlockSet;
      InRange(Abs());
      released := [];
      var i := 0;
      while i < blocksUsed
        invariant 0 <= i <= made && heap == BlockSet(blocks, i, made)
        invariant Elems(released) + heap == old(heap) && Elems(released) !! heap
        invariant NoRepeats(released)
      {
        NextToFree(old(Abs()), i);
        if blocks[i] == 0 { break; }
        assert blocks[i] in heap;
        AddedLast(released, blocks[i]);
        released := released + [blocks[i]];
        heap := heap - {blocks[i]};
        i := i + 1;
      }
      AllFreed(old(Abs()), i);
    }
  }

  lemma ListIsChain(v: View)
    requires Good(v)
    ensures Chain(v.freed, v.mem, v.free)
  {
    hide CarvedSet, Shape, Count;
  }

  lemma ChainEnds(mem: Memory, list: seq<nat>)
    requires Chain(0, mem, list)
    ensures list == []
  {
  }

  predicate NoRepeats(list: seq<nat>) {
    forall i, j :: 0 <= i < j < |list| ==> list[i] != list[j]
  }

  /** A chain visits no element twice. */
  lemma {:induction false} ChainDistinct(first: nat, mem: Memory, list: seq<nat>)
    requires Chain(first, mem, list)
    ensures NoRepeats(list) && |Elems(list)| == |list|
    decreases |list|
  {
    if list != [] {
      ChainDistinct(Load(mem, first), mem, list[1..]);
      assert forall i :: 1 <= i < |list| ==> list[i] == list[1..][i - 1];
      assert Elems(list) == {list[0]} + Elems(list[1..]);
    }
  }

  /** The free list and the live elements share out the carved ones. */
  lemma SharedOut(v: View)
    requires Good(v)
    ensures NoRepeats(v.free) && Elems(v.free) !! v.live && |v.free| + |v.live| == v.peak
  {
    hide CarvedSet, Shape, Count, Chain;
    ChainDistinct(v.freed, v.mem, v.free);
    assert v.carved == v.live + Elems(v.free);
  }

  lemma AddedLast(list: seq<nat>, x: nat)
    ensures Elems(list + [x]) == Elems(list) + {x}
    ensures forall i :: 0 <= i < |list| ==> list[i] in Elems(list)
  {
  }

  const U32: nat := 0x1_0000_0000

  /** All elements the pool hands out of a block lie in the bytes malloc was asked for, both products in 32 bits. */
  predicate AllInside(e: nat, n: nat) {
    forall i :: 0 <= i < Max(1, n) ==> Inside(e, n, i)
  }

  predicate Inside(e: nat, n: nat, i: nat) {
    i * e % U32 + e <= BlockBytes(e, n) % U32
  }

  /** That is so if and only if a block has at least one element and its size fits in 32 bits. */
  lemma BlockSizeIsExact(e: nat, n: nat)
    requires LINK_BYTES <= e < U32 && n < U32
    ensures AllInside(e, n) <==> n >= 1 && e * n < 0x1_0000_0000
  {
    hide Inside, BlockBytes;
    BytesOfBlock(e, n);
    if n >= 1 && BlockBytes(e, n) < U32 {
      forall i | 0 <= i < n
        ensures Inside(e, n, i)
      {
        FitsWhole(e, n, i);
      }
    } else if n >= 1 {
      LastBelow(e, n);
      ReachesOver(e, n, (U32 - 1) / e);
    } else {
      EmptyBlock(e);
    }
  }

  lemma BytesOfBlock(e: nat, n: nat)
    ensures BlockBytes(e, n) == e * n
  {
  }

  lemma FitsWhole(e: nat, n: nat, i: nat)
    requires i < n && BlockBytes(e, n) < U32
    ensures Inside(e, n, i)
  {
    ElementInBlock(e, n, i);
  }

  lemma ReachesOver(e: nat, n: nat, i: nat)
    requires i * e < U32 <= i * e + e
    ensures !Inside(e, n, i)
  {
    hide BlockBytes;
  }

  lemma EmptyBlock(e: nat)
    requires e > 0
    ensures !Inside(e, 0, 0)
  {
  }

  /** The element that would reach past 2^32 is one of a block that large. */
  lemma LastBelow(e: nat, n: nat)
    requires 0 < e < U32 && BlockBytes(e, n) >= U32
    ensures var i := (U32 - 1) / e; i < n && i * e < U32 <= i * e + e
  {
    var i := (U32 - 1) / e;
    assert U32 - 1 == e * i + (U32 - 1) % e;
    if i >= n { assert e * i >= e * n by { ProductGrows(e, n, i); } }
  }

  lemma ProductGrows(e: nat, n: nat, i: nat)
    requires n <= i
    ensures e * n <= e * i
  {
  }

  lemma InRange(v: View)
    requires Good(v)
    ensures v.n >= 1 && -1 <= v.block < |v.blocks| && v.used < v.n && v.made <= |v.blocks| && |v.blocks| >= 1
    ensures v.heap == BlockSet(v.blocks, 0, v.made)
    ensures v.block + 1 < |v.blocks| ==> (v.blocks[v.block + 1] == 0 <==> v.block + 1 >= v.made)
    ensures v.block + 1 == |v.blocks| ==> v.made == |v.blocks|
  {
  }

  lemma NextToFree(v: View, i: nat)
    requires Good(v) && i < |v.blocks| && i <= v.made
    ensures v.blocks[i] == 0 <==> i == v.made
    ensures i < v.made ==> v.blocks[i] in BlockSet(v.blocks, i, v.made)
    ensures i < v.made ==> BlockSet(v.blocks, i, v.made) - {v.blocks[i]} == BlockSet(v.blocks, i + 1, v.made)
  {
    hide Ledger;
    if i < v.made {
      assert BlockBytes(v.e, v.n) > 0;
      assert forall k :: i < k < v.made ==> Apart(v.blocks[i], v.blocks[k], BlockBytes(v.e, v.n));
    }
  }

  lemma AllFreed(v: View, i: nat)
    requires Good(v) && i <= v.made && (i == |v.blocks| || v.blocks[i] == 0)
    ensures BlockSet(v.blocks, i, v.made) == {}
  {
  }

  // ---- Whole runs ----

  datatype Op = DoMalloc | DoFree(p: nat) | DoScribble(p: nat, at: nat, cells: seq<Cell>) | DoReset

  /**
   What a client may know: the elements it holds, the most it ever held since the last reset, and what it wrote into
   the bytes it holds.
   */
  datatype Books = Books(held: set<nat>, peak: nat, kept: Memory)

  const NO_BOOKS := Books({}, 0, map[])

  function Dropped(m: Memory, p: nat, n: nat): (r: Memory)
    ensures forall x :: x in r <==> x in m && !(p <= x < p + n)
  {
    map x | x in m && !(p <= x < p + n) :: m[x]
  }

  /** The books after one operation on elements of `e` bytes; `got` is what malloc returned. */
  function Post(e: nat, k: Books, op: Op, got: nat): Books {
    match op
    case DoMalloc => k.(held := k.held + {got}, peak := Max(k.peak, |k.held + {got}|))
    case DoFree(p) => if p in k.held then k.(held := k.held - {p}, kept := Dropped(k.kept, p, e)) else k
    case DoScribble(p, at, cells) =>
      if p in k.held && at + |cells| <= e then k.(kept := Write(k.kept, p + at, cells)) else k
    case DoReset => NO_BOOKS
  }

  function PostAll(e: nat, ops: seq<Op>, gots: seq<nat>): Books
    requires |ops| == |gots|
  {
    var n := |ops| - 1;
    if n < 0 then NO_BOOKS else Post(e, PostAll(e, ops[..n], gots[..n]), ops[n], gots[n])
  }

  /** Every malloc so far was answered, with an element that was not held. */
  predicate AllServed(e: nat, ops: seq<Op>, gots: seq<nat>)
    requires |gots| <= |ops|
  {
    forall k :: 0 <= k < |gots| && ops[k].DoMalloc? ==>
      gots[k] != 0 && gots[k] !in PostAll(e, ops[..k], gots[..k]).held
  }

  /** Memory still has what is on the books. */
  predicate Keeps(m: Memory, kept: Memory) {
    forall x :: x in kept ==> x in m && m[x] == kept[x]
  }

  /** What is on the books lies in elements that are held. */
  predicate Within(k: Books, e: nat) {
    forall x :: x in k.kept ==> exists p :: p in k.held && p <= x < p + e
  }

  /**
   Every run of a client that frees and writes only what it holds: every malloc is answered with an element that is
   not held, held elements never overlap and keep what was written into them, the number of elements carved since
   the last reset is the peak number held, and the free list holds the carved elements that are not held, each once.
   The run is refused just when a malloc would hand out memory that is not the pool's, because its blocks have no
   elements.
   */
  method Run(elementBytes: nat, blockElements: nat, ops: seq<Op>)
    returns (ok: bool, books: Books, gots: seq<nat>, carved: int, free: seq<nat>, memory: Memory)
    ensures ok <==> blockElements >= 1 || !Asks(ops)
    ensures ok ==> |gots| == |ops|
    ensures ok ==> books == PostAll(Max(8, elementBytes), ops, gots) && AllServed(Max(8, elementBytes), ops, gots)
    ensures ok ==> Keeps(memory, books.kept)
    ensures ok ==> carved == books.peak
    ensures ok ==> forall p, q :: p in books.held && q in books.held && p != q ==> Apart(p, q, Max(8, elementBytes))
    ensures ok ==> NoRepeats(free) && Elems(free) !! books.held && |free| + |books.held| == carved
  {
    hide Good, Max, NoRepeats, Elems, Post, PostAll, AllServed, Keeps, Within;
    var e := Max(8, elementBytes);
    NothingYet(e, ops);
    ok, books, gots, carved, free, memory := true, NO_BOOKS, [], 0, [], map[];
    if blockElements == 0 {
      gots := seq(|ops|, _ => 0);
      ok := !Asks(ops);
      if ok { NeverAsked(e, ops, gots); }
      return;
    }
    var pool := new Pool(elementBytes, blockElements);
    var i := 0;
    while i < |ops|
      invariant 0 <= i <= |ops| && |gots| == i && fresh(pool) && pool.Valid() && pool.elementSize == e
      invariant books == PostAll(e, ops[..i], gots) && AllServed(e, ops, gots)
      invariant books.held == pool.live && books.peak == pool.peak
      invariant Keeps(pool.mem, books.kept) && Within(books, e)
    {
      var got := Do(pool, ops[i], books);
      PostNext(e, ops, gots, got);
      gots := gots + [got];
      books := Post(e, books, ops[i], got);
      i := i + 1;
    }
    assert ops[..|ops|] == ops;
    carved := Count(pool.block, pool.blockSize, pool.used);
    CountIsPeak(pool.Abs());
    forall p, q | p in books.held && q in books.held && p != q
      ensures Apart(p, q, e)
    {
      LiveApart(pool.Abs(), p, q);
    }
    SharedOut(pool.Abs());
    memory := pool.mem;
    free := pool.Walk();
  }

  predicate Asks(ops: seq<Op>) {
    exists i :: 0 <= i < |ops| && ops[i].DoMalloc?
  }

  lemma {:induction false} NeverAsked(e: nat, ops: seq<Op>, gots: seq<nat>)
    requires |ops| == |gots| && !Asks(ops)
    ensures PostAll(e, ops, gots) == NO_BOOKS && AllServed(e, ops, gots) && NoRepeats([]) && Elems([]) == {}
    ensures Keeps(map[], map[])
    decreases |ops|
  {
    if ops != [] {
      var n := |ops| - 1;
      assert forall i :: 0 <= i < n ==> ops[..n][i] == ops[i];
      NeverAsked(e, ops[..n], gots[..n]);
    }
  }

  /** One operation of a client that touches only what it holds. */
  method Do(pool: Pool, op: Op, books: Books) returns (got: nat)
    requires pool.Valid() && books.held == pool.live && books.peak == pool.peak
    requires Keeps(pool.mem, books.kept) && Within(books, pool.elementSize)
    modifies pool
    ensures pool.Valid() && pool.elementSize == old(pool.elementSize)
    ensures op.DoMalloc? ==> got != 0 && got !in books.held
    ensures var k := Post(pool.elementSize, books, op, got);
            && k.held == pool.live && k.peak == pool.peak
            && Keeps(pool.mem, k.kept) && Within(k, pool.elementSize)
  {
    hide Good, FreshBlock, Max, Room, Unchanged;
    got := 0;
    match op {
      case DoMalloc =>
        var base := Place(pool.blocks, pool.elementSize, pool.blockSize);
        RoomIsFresh(pool.Abs(), base);
        got := pool.Malloc(base);
        Mallocs(pool.Abs(), got);
      case DoFree(p) =>
        if p in books.held {
          KeptByFree(pool.Abs(), books, p);
          pool.Free(p);
        }
      case DoScribble(p, at, cells) =>
        if p in books.held && at + |cells| <= pool.elementSize {
          KeptByWrite(pool.mem, books, p, at, cells, pool.elementSize);
          pool.Scribble(p, at, cells);
        }
      case DoReset =>
        pool.FreeAll();
    }
  }

  /** What the client wrote into its other elements survives the link that free writes. */
  lemma KeptByFree(v: View, k: Books, p: nat)
    requires Good(v) && p in v.live && k.held == v.live && Keeps(v.mem, k.kept) && Within(k, v.e)
    ensures Within(k.(held := k.held - {p}, kept := Dropped(k.kept, p, v.e)), v.e)
    ensures forall m :: Unchanged(v.mem, m, p, 8) ==> Keeps(m, Dropped(k.kept, p, v.e))
  {
    hide CarvedSet, Count, Shape, Chain;
    EightBytes(v);
    forall x | x in Dropped(k.kept, p, v.e)
      ensures exists q :: q in k.held - {p} && q <= x < q + v.e
    {
      var q :| q in k.held && q <= x < q + v.e;
      assert q in k.held - {p};
    }
  }

  lemma EightBytes(v: View)
    requires Good(v)
    ensures v.e >= 8
  {
  }

  lemma KeptByWrite(m: Memory, k: Books, p: nat, at: nat, cells: seq<Cell>, e: nat)
    requires p in k.held && at + |cells| <= e && Keeps(m, k.kept) && Within(k, e)
    ensures Keeps(Write(m, p + at, cells), Write(k.kept, p + at, cells))
    ensures Within(k.(kept := Write(k.kept, p + at, cells)), e)
  {
    var r, t := Write(m, p + at, cells), Write(k.kept, p + at, cells);
    forall x | x in t
      ensures x in r && r[x] == t[x] && exists q :: q in k.held && q <= x < q + e
    {
      if p + at <= x < p + at + |cells| { assert p in k.held; }
    }
  }

  /** Where malloc puts a block: anywhere that overlaps no existing one. */
  method Place(blocks: seq<nat>, e: nat, n: nat) returns (base: nat)
    ensures Room(blocks, base, e, n)
  {
    hide Room, BlockBytes;
    base := *;
    if !Room(blocks, base, e, n) {
      base := Beyond(blocks, BlockBytes(e, n));
      BeyondHasRoom(blocks, e, n);
    }
  }

  /** An address behind all blocks. */
  function Beyond(blocks: seq<nat>, bytes: nat): (r: nat)
    ensures r > 0 && forall i :: 0 <= i < |blocks| ==> blocks[i] + bytes < r
  {
    if blocks == [] then 1
    else Max(Beyond(blocks[..|blocks| - 1], bytes), blocks[|blocks| - 1] + bytes + 1)
  }

  lemma BeyondHasRoom(blocks: seq<nat>, e: nat, n: nat)
    ensures Room(blocks, Beyond(blocks, BlockBytes(e, n)), e, n)
  {
    hide BlockBytes;
  }

  /** Would a block at `base` overlap none of the existing ones? */
  predicate Room(blocks: seq<nat>, base: nat, e: nat, n: nat) {
    base != 0 && forall i :: 0 <= i < |blocks| && blocks[i] != 0 ==>
      blocks[i] + BlockBytes(e, n) <= base || base + BlockBytes(e, n) <= blocks[i]
  }

  lemma RoomIsFresh(v: View, base: nat)
    requires Room(v.blocks, base, v.e, v.n)
    ensures FreshBlock(v, base)
  {
    hide BlockBytes;
  }

  lemma Mallocs(v: View, p: nat)
    requires Good(v) && p in v.live
    ensures p != 0
  {
    hide CarvedSet, Chain, Count, Shape;
    NotNull(v, p);
  }

  lemma NothingYet(e: nat, ops: seq<Op>)
    ensures ops[..0] == [] && PostAll(e, [], []) == NO_BOOKS && AllServed(e, ops, [])
    ensures Within(NO_BOOKS, e) && forall m :: Keeps(m, map[])
  {
  }

  /** One more operation, with the answer it got. */
  lemma PostNext(e: nat, ops: seq<Op>, gots: seq<nat>, got: nat)
    requires |gots| < |ops| && AllServed(e, ops, gots)
    requires ops[|gots|].DoMalloc? ==> got != 0 && got !in PostAll(e, ops[..|gots|], gots).held
    ensures PostAll(e, ops[..|gots| + 1], gots + [got]) == Post(e, PostAll(e, ops[..|gots|], gots), ops[|gots|], got)
    ensures AllServed(e, ops, gots + [got])
  {
    hide PostAll, Post;
    var i, o, g := |gots|, ops[..|gots| + 1], gots + [got];
    assert o[..i] == ops[..i] && o[i] == ops[i];
    assert g[..i] == gots && g[i] == got;
    PostLast(e, o, g);
    forall k | 0 <= k < |g| && ops[k].DoMalloc?
      ensures g[k] != 0 && g[k] !in PostAll(e, ops[..k], g[..k]).held
    {
      if k < i { assert g[..k] == gots[..k]; }
    }
  }

  lemma PostLast(e: nat, ops: seq<Op>, gots: seq<nat>)
    requires |ops| == |gots| > 0
    ensures var n := |ops| - 1; PostAll(e, ops, gots) == Post(e, PostAll(e, ops[..n], gots[..n]), ops[n], gots[n])
  {
    hide Post;
  }

  lemma CountIsPeak(v: View)
    requires Good(v)
    ensures Count(v.block, v.n, v.used) == v.peak
  {
    hide CarvedSet, Chain, Shape;
  }
}
