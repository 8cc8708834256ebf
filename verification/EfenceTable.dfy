/**
 Electric Fence's slot table as a value: what a well-kept table is, and how each kind of table
 update (fresh chunk, placement with split, release, merge) keeps it well kept.
 */
module EfenceTable {
  import opened PageMath

  datatype Mode = NotInUse | Free | Allocated | Protected | InternalUse

  datatype Slot = Slot(userAddress: nat, internalAddress: nat, userSize: nat, internalSize: nat, mode: Mode) {
    function End(): nat { internalAddress + internalSize }
    predicate InUse() { !mode.NotInUse? }
    predicate Covers(x: int) { InUse() && internalAddress <= x < End() }
    predicate Idle() { mode.Free? || mode.Protected? }
  }

  const EMPTY_SLOT := Slot(0, 0, 0, 0, NotInUse)

  /** Freshly zeroed table memory. */
  function EmptySlots(n: nat): (r: seq<Slot>)
    ensures |r| == n && forall i :: 0 <= i < n ==> r[i] == EMPTY_SLOT
  {
    seq(n, _ => EMPTY_SLOT)
  }

  const MEMORY_CREATION_SIZE: nat := 1024 * 1024
  const SLOT_BYTES: nat := 40
  const SIZE_T: nat := 0x1_0000_0000_0000_0000

  /** The settings that stay fixed during a run. */
  datatype Config = Config(page: nat, alignment: nat, below: bool, protectFree: bool, allowZero: bool) {
    predicate Valid() {
      && 0 < page < MEMORY_CREATION_SIZE
      && page / SLOT_BYTES >= 7
      && (alignment <= 1 || Aligned(alignment, page))
    }
  }

  /** One region obtained from the operating system. */
  datatype Chunk = Chunk(base: nat, size: nat) {
    predicate Covers(x: int) { base <= x < base + size }
  }

  ghost function Bytes(start: nat, size: nat): (r: iset<int>)
    ensures forall x :: x in r <==> start <= x < start + size
  {
    iset x | Chunk(start, size).Covers(x)
  }

  predicate Mapped(chunks: seq<Chunk>, x: int) {
    exists k :: 0 <= k < |chunks| && chunks[k].Covers(x)
  }

  predicate ChunkStart(chunks: seq<Chunk>, x: int) {
    exists k :: 0 <= k < |chunks| && chunks[k].base == x
  }

  predicate Covered(s: seq<Slot>, x: int) {
    exists i :: 0 <= i < |s| && s[i].Covers(x)
  }

  // ---- The invariants of the table ----

  /** Where the bytes of a buffer start and end, and where its dead page is. */
  function LiveStart(c: Config, b: Slot): int { if c.below then b.internalAddress + c.page else b.internalAddress }
  function LiveEnd(c: Config, b: Slot): int { if c.below then b.End() else b.End() - c.page }
  function DeadStart(c: Config, b: Slot): int { if c.below then b.internalAddress else b.End() - c.page }

  ghost predicate SlotOk(c: Config, b: Slot)
    requires c.page > 0
  {
    if b.mode.NotInUse? then b.userAddress == b.internalAddress == b.userSize == b.internalSize == 0
    else
      && b.internalAddress > 0
      && b.internalSize > 0
      && Aligned(c.page, b.internalAddress)
      && Aligned(c.page, b.internalSize)
      && (b.mode.Protected? ==> c.protectFree)
      && (b.mode.Allocated? ==>
            && b.internalAddress <= b.userAddress
            && b.internalSize >= c.page
            && (if c.below then b.userAddress == LiveStart(c, b) && b.userAddress + b.userSize <= LiveEnd(c, b)
                else b.userAddress + b.userSize == LiveEnd(c, b)))
      && (b.mode.InternalUse? ==>
            && b.userSize > 0
            && Aligned(c.page, b.userAddress)
            && Aligned(c.page, b.userSize)
            && b.internalAddress <= b.userAddress
            && b.userAddress + b.userSize <= b.End())
  }

  ghost predicate Tidy(c: Config, s: seq<Slot>)
    requires c.page > 0
  {
    forall i :: 0 <= i < |s| ==> SlotOk(c, s[i])
  }

  /** An empty buffer fenced from below: its address is where its slot ends, that is, where the next one starts. */
  predicate Hollow(c: Config, b: Slot) {
    c.below && b.mode.Allocated? && b.userSize == 0
  }

  /**
   Idle slots have no address or that of their start, and with the dead page below, every table but the one of
   start-up, which is slot 0, has the address behind that page.
   */
  ghost predicate Named(c: Config, i: int, b: Slot) {
    && (b.Idle() ==> b.userAddress == 0 || b.userAddress == b.internalAddress)
    && (c.below && b.mode.InternalUse? && i > 0 ==> b.userAddress == b.internalAddress + c.page)
  }

  ghost predicate AllNamed(c: Config, s: seq<Slot>) {
    forall i :: 0 <= i < |s| ==> Named(c, i, s[i])
  }

  ghost predicate NamedBut(c: Config, s: seq<Slot>, k: int) {
    forall i :: 0 <= i < |s| && i != k ==> Named(c, i, s[i])
  }

  ghost predicate Apart(a: Slot, b: Slot) {
    a.InUse() && b.InUse() ==> a.End() <= b.internalAddress || b.End() <= a.internalAddress
  }

  ghost predicate Separate(s: seq<Slot>) {
    forall i, j :: 0 <= i < |s| && 0 <= j < |s| && i != j ==> Apart(s[i], s[j])
  }

  /** The in-use slots tile exactly the memory obtained so far: nothing lost, nothing owned twice. */
  ghost predicate Partition(s: seq<Slot>, chunks: seq<Chunk>) {
    && Separate(s)
    && forall x: int :: Mapped(chunks, x) <==> Covered(s, x)
  }

  /** Neighbours that could have been merged: address-adjacent, both free or both protected. */
  predicate Mergeable(a: Slot, b: Slot) {
    a.Idle() && b.Idle() && (a.mode.Free? <==> b.mode.Free?) && a.End() == b.internalAddress
  }

  /** Mergeable neighbours meet only where a chunk starts, or at a pending edge of slot `k`. */
  ghost predicate CanonicalBut(s: seq<Slot>, chunks: seq<Chunk>, k: int, left: bool, right: bool) {
    forall i, j :: 0 <= i < |s| && 0 <= j < |s| && Mergeable(s[i], s[j]) ==>
      ChunkStart(chunks, s[j].internalAddress) || (left && j == k) || (right && i == k)
  }

  ghost predicate Canonical(s: seq<Slot>, chunks: seq<Chunk>) {
    forall i, j :: 0 <= i < |s| && 0 <= j < |s| && Mergeable(s[i], s[j]) ==>
      ChunkStart(chunks, s[j].internalAddress)
  }

  /**
   Access rights of one slot. `used` holds every byte that was part of a buffer at some time (or was
   denied at start-up); a byte of free memory may be accessible only if it is not among them.
   */
  ghost predicate FencedSlot(c: Config, b: Slot, access: iset<int>, used: iset<int>) {
    && (b.mode.Allocated? ==>
          && (forall x :: LiveStart(c, b) <= x < LiveEnd(c, b) ==> x in access)
          && (forall x :: DeadStart(c, b) <= x < DeadStart(c, b) + c.page ==> x !in access))
    && (b.mode.Protected? ==> forall x :: b.Covers(x) ==> x !in access)
    && (b.mode.Free? ==> forall x :: b.Covers(x) && x in used ==> x !in access)
    && (b.mode.Allocated? || b.mode.Protected? || b.mode.InternalUse? ==> forall x :: b.Covers(x) ==> x in used)
  }

  ghost predicate Fenced(c: Config, s: seq<Slot>, access: iset<int>, used: iset<int>) {
    forall i :: 0 <= i < |s| ==> FencedSlot(c, s[i], access, used)
  }

  /** Under EF_PROTECT_FREE no byte that was ever part of a buffer, or of a table, is free again. */
  ghost predicate Spared(c: Config, s: seq<Slot>, given: iset<int>) {
    c.protectFree ==> forall i, x :: 0 <= i < |s| && s[i].mode.Free? && s[i].Covers(x) ==> x !in given
  }

  /** Everything the table promises about memory at once. */
  ghost predicate Intact(c: Config, s: seq<Slot>, chunks: seq<Chunk>, access: iset<int>, used: iset<int>)
    requires c.page > 0
  {
    && Tidy(c, s)
    && Partition(s, chunks)
    && Canonical(s, chunks)
    && Fenced(c, s, access, used)
    && forall x :: x in used ==> Mapped(chunks, x)
  }

  function CountUnused(s: seq<Slot>): nat {
    if s == [] then 0 else CountUnused(s[..|s| - 1]) + (if s[|s| - 1].InUse() then 0 else 1)
  }

  ghost function WithMode(s: seq<Slot>, m: Mode): set<Slot> {
    set i | 0 <= i < |s| && s[i].mode == m :: s[i]
  }

  // ---- Counting ----

  lemma {:induction false} CountUpdate(s: seq<Slot>, i: nat, v: Slot)
    requires i < |s|
    ensures CountUnused(s[i := v]) ==
            CountUnused(s) + (if v.InUse() then 0 else 1) - (if s[i].InUse() then 0 else 1)
  {
    var n := |s| - 1;
    if i == n {
      assert s[i := v][..n] == s[..n];
    } else {
      assert s[i := v][..n] == s[..n][i := v];
      CountUpdate(s[..n], i, v);
    }
  }

  lemma {:induction false} CountAppendEmpty(s: seq<Slot>, n: nat)
    ensures CountUnused(s + EmptySlots(n)) == CountUnused(s) + n
  {
    if n == 0 {
      assert s + EmptySlots(n) == s;
    } else {
      var t := s + EmptySlots(n);
      assert t[..|t| - 1] == s + EmptySlots(n - 1);
      CountAppendEmpty(s, n - 1);
    }
  }

  // ---- Modes ----

  lemma WithModeUpdate(s: seq<Slot>, i: nat, v: Slot, m: Mode)
    requires i < |s| && Separate(s)
    requires s[i].InUse() ==> s[i].internalSize > 0
    requires !m.NotInUse?
    ensures WithMode(s[i := v], m) == WithMode(s, m) - {s[i]} + (if v.mode == m then {v} else {})
  {
    var t := s[i := v];
    forall x | x in WithMode(t, m)
      ensures x in WithMode(s, m) - {s[i]} + (if v.mode == m then {v} else {})
    {
      var j :| 0 <= j < |t| && t[j].mode == m && t[j] == x;
      if j != i {
        assert s[j] == x;
        assert Apart(s[j], s[i]);
      }
    }
    forall x | x in WithMode(s, m) - {s[i]} + (if v.mode == m then {v} else {})
      ensures x in WithMode(t, m)
    {
      if x in WithMode(s, m) - {s[i]} {
        var j :| 0 <= j < |s| && s[j].mode == m && s[j] == x;
        assert t[j] == x;
      } else {
        assert t[i] == x;
      }
    }
  }

  // ---- Address facts ----

  /** A mapped byte that does not start a chunk follows another mapped byte. */
  lemma MappedPredecessor(chunks: seq<Chunk>, x: int)
    requires Mapped(chunks, x) && !ChunkStart(chunks, x)
    ensures Mapped(chunks, x - 1)
  {
    var k :| 0 <= k < |chunks| && chunks[k].Covers(x);
    assert chunks[k].Covers(x - 1);
  }

  lemma MappedExtend(chunks: seq<Chunk>, ch: Chunk, x: int)
    ensures Mapped(chunks + [ch], x) <==> Mapped(chunks, x) || ch.Covers(x)
    ensures ChunkStart(chunks + [ch], x) <==> ChunkStart(chunks, x) || ch.base == x
  {
    var t := chunks + [ch];
    assert t[|chunks|] == ch;
    if Mapped(chunks, x) {
      var k :| 0 <= k < |chunks| && chunks[k].Covers(x);
      assert t[k].Covers(x);
    }
    if ChunkStart(chunks, x) {
      var k :| 0 <= k < |chunks| && chunks[k].base == x;
      assert t[k].base == x;
    }
  }

  // ---- Fences ----

  /** A slot whose own bytes keep their rights and history keeps its fence. */
  lemma FencedFrame(c: Config, b: Slot, access: iset<int>, used: iset<int>, access': iset<int>, used': iset<int>)
    requires c.page > 0 && SlotOk(c, b) && FencedSlot(c, b, access, used)
    requires forall x :: b.Covers(x) ==> (x in access' <==> x in access) && (x in used' <==> x in used)
    ensures FencedSlot(c, b, access', used')
  {
    hide Aligned;
    if b.mode.Allocated? {
      assert forall x :: LiveStart(c, b) <= x < LiveEnd(c, b) ==> b.Covers(x);
      assert forall x :: DeadStart(c, b) <= x < DeadStart(c, b) + c.page ==> b.Covers(x);
    }
  }

  /** Memory left over from a free slot is as closed as the slot was. */
  lemma FencedPart(c: Config, b: Slot, part: Slot, access: iset<int>, used: iset<int>, access': iset<int>,
      used': iset<int>)
    requires FencedSlot(c, b, access, used) && b.mode.Free? && part.mode.Free?
    requires forall x :: part.Covers(x) ==>
             b.Covers(x) && (x in access' <==> x in access) && (x in used' <==> x in used)
    ensures FencedSlot(c, part, access', used')
  {
  }

  // ---- Growing the memory: a fresh chunk becomes one free slot ----

  lemma AddChunkPartition(s: seq<Slot>, chunks: seq<Chunk>, e: nat, ch: Chunk)
    requires Partition(s, chunks) && e < |s| && !s[e].InUse() && ch.size > 0
    requires forall i :: 0 <= i < |s| && s[i].InUse() ==> s[i].internalSize > 0
    requires forall x :: ch.Covers(x) ==> !Mapped(chunks, x)
    ensures Partition(s[e := Slot(0, ch.base, 0, ch.size, Free)], chunks + [ch])
  {
    var v := Slot(0, ch.base, 0, ch.size, Free);
    var t := s[e := v];
    forall i | 0 <= i < |s| && i != e
      ensures Apart(s[i], v)
    {
      if s[i].InUse() && !(s[i].End() <= v.internalAddress || v.End() <= s[i].internalAddress) {
        var x := if s[i].internalAddress < ch.base then ch.base else s[i].internalAddress;
        assert s[i].Covers(x) && ch.Covers(x);
        assert Covered(s, x);
        assert false;
      }
    }
    forall x: int
      ensures Mapped(chunks + [ch], x) <==> Covered(t, x)
    {
      MappedExtend(chunks, ch, x);
      CoveredUpdate(s, e, v, x);
    }
  }

  lemma CoveredUpdate(s: seq<Slot>, e: nat, v: Slot, x: int)
    requires e < |s|
    ensures Covered(s, x) ==> Covered(s[e := v], x) || s[e].Covers(x)
    ensures Covered(s[e := v], x) ==> Covered(s, x) || v.Covers(x)
    ensures v.Covers(x) ==> Covered(s[e := v], x)
  {
    var t := s[e := v];
    if Covered(s, x) {
      var i :| 0 <= i < |s| && s[i].Covers(x);
      if i != e { assert t[i].Covers(x); }
    }
    if Covered(t, x) {
      var i :| 0 <= i < |t| && t[i].Covers(x);
      if i != e { assert s[i].Covers(x); }
    }
    if v.Covers(x) { assert t[e].Covers(x); }
  }

  lemma AddChunkCanonical(s: seq<Slot>, chunks: seq<Chunk>, e: nat, ch: Chunk)
    requires Partition(s, chunks) && Canonical(s, chunks) && e < |s| && !s[e].InUse() && ch.size > 0
    requires forall i :: 0 <= i < |s| && s[i].InUse() ==> s[i].internalSize > 0
    requires forall x :: ch.Covers(x) ==> !Mapped(chunks, x)
    ensures Canonical(s[e := Slot(0, ch.base, 0, ch.size, Free)], chunks + [ch])
  {
    var t := s[e := Slot(0, ch.base, 0, ch.size, Free)];
    forall i, j | 0 <= i < |t| && 0 <= j < |t| && Mergeable(t[i], t[j])
      ensures ChunkStart(chunks + [ch], t[j].internalAddress)
    {
      var x := t[j].internalAddress;
      MappedExtend(chunks, ch, x);
      if j != e {
        if i == e {
          assert s[j].Covers(x);
          assert ch.Covers(x - 1);
          if !ChunkStart(chunks, x) { MappedPredecessor(chunks, x); }
        } else {
          assert Mergeable(s[i], s[j]);
        }
      }
    }
  }

  lemma AddChunkFenced(c: Config, s: seq<Slot>, chunks: seq<Chunk>, e: nat, ch: Chunk, access: iset<int>,
      used: iset<int>)
    requires Partition(s, chunks) && Fenced(c, s, access, used) && e < |s| && c.page > 0
    requires Tidy(c, s)
    requires forall x :: ch.Covers(x) ==> !Mapped(chunks, x) && x !in used
    ensures Fenced(c, s[e := Slot(0, ch.base, 0, ch.size, Free)], access + Bytes(ch.base, ch.size), used)
  {
    hide SlotOk;
    var v := Slot(0, ch.base, 0, ch.size, Free);
    var access' := access + Bytes(ch.base, ch.size);
    forall i | 0 <= i < |s| && i != e
      ensures FencedSlot(c, s[i], access', used)
    {
      forall x | s[i].Covers(x)
        ensures x in access' <==> x in access
      {
        assert Covered(s, x);
      }
      FencedFrame(c, s[i], access, used, access', used);
    }
    assert FencedSlot(c, v, access', used);
  }

  // ---- Placing a buffer: take the front of a free slot, leave the rest in an empty slot ----

  /** The table after slot `f` is cut down to `v` and the surplus, if any, moves to slot `e`. */
  function Placed(s: seq<Slot>, f: nat, e: nat, v: Slot): (t: seq<Slot>)
    requires f < |s| && e < |s| && s[f].internalSize >= v.internalSize
    ensures |t| == |s|
  {
    if s[f].internalSize > v.internalSize
    then s[f := v][e := Slot(0, v.End(), 0, s[f].internalSize - v.internalSize, Free)]
    else s[f := v]
  }

  ghost predicate CanPlace(s: seq<Slot>, f: nat, e: nat, v: Slot) {
    && f < |s| && e < |s| && f != e
    && s[f].mode.Free? && !s[e].InUse()
    && v.InUse() && !v.Idle()
    && v.internalAddress == s[f].internalAddress
    && 0 < v.internalSize <= s[f].internalSize
  }

  lemma PlacePartition(s: seq<Slot>, chunks: seq<Chunk>, f: nat, e: nat, v: Slot)
    requires Partition(s, chunks) && CanPlace(s, f, e, v)
    ensures Partition(Placed(s, f, e, v), chunks)
  {
    var t := Placed(s, f, e, v);
    forall i, j | 0 <= i < |t| && 0 <= j < |t| && i != j
      ensures Apart(t[i], t[j])
    {
      assert Apart(s[i], s[j]);
      assert Apart(s[i], s[f]) || i == f;
      assert Apart(s[j], s[f]) || j == f;
    }
    forall x: int
      ensures Covered(s, x) <==> Covered(t, x)
    {
      var r := s[f := v];
      CoveredUpdate(s, f, v, x);
      CoveredUpdate(r, e, t[e], x);
      assert s[f].Covers(x) ==> Covered(s, x);
      assert r[e] == s[e];
    }
  }

  lemma PlaceCanonical(s: seq<Slot>, chunks: seq<Chunk>, f: nat, e: nat, v: Slot)
    requires Separate(s) && Canonical(s, chunks) && CanPlace(s, f, e, v)
    requires forall i :: 0 <= i < |s| && s[i].InUse() ==> s[i].internalSize > 0
    ensures Canonical(Placed(s, f, e, v), chunks)
  {
    var t := Placed(s, f, e, v);
    forall i, j | 0 <= i < |t| && 0 <= j < |t| && Mergeable(t[i], t[j])
      ensures ChunkStart(chunks, t[j].internalAddress)
    {
      if i == e {
        assert Mergeable(s[f], s[j]) || j == e;
      } else if j != e {
        assert Mergeable(s[i], s[j]);
      }
    }
  }

  lemma PlaceFenced(c: Config, s: seq<Slot>, f: nat, e: nat, v: Slot, access: iset<int>, used: iset<int>,
      access': iset<int>)
    requires c.page > 0 && Separate(s) && Tidy(c, s) && Fenced(c, s, access, used) && CanPlace(s, f, e, v)
    requires v.internalSize >= c.page
    requires forall x :: !v.Covers(x) ==> (x in access' <==> x in access)
    requires forall x :: LiveStart(c, v) <= x < LiveEnd(c, v) ==> x in access'
    requires forall x :: DeadStart(c, v) <= x < DeadStart(c, v) + c.page ==> x !in access'
    ensures Fenced(c, Placed(s, f, e, v), access', used + Bytes(v.internalAddress, v.internalSize))
  {
    hide SlotOk;
    var t := Placed(s, f, e, v);
    var used' := used + Bytes(v.internalAddress, v.internalSize);
    forall i | 0 <= i < |t| && i != f
      ensures FencedSlot(c, t[i], access', used')
    {
      if i == e && s[f].internalSize > v.internalSize {
        FencedPart(c, s[f], t[e], access, used, access', used');
      } else {
        assert Apart(s[i], s[f]);
        FencedFrame(c, s[i], access, used, access', used');
      }
    }
    assert FencedSlot(c, v, access', used');
  }

  lemma PlaceTidy(c: Config, s: seq<Slot>, f: nat, e: nat, v: Slot)
    requires c.page > 0 && Tidy(c, s) && CanPlace(s, f, e, v) && SlotOk(c, v)
    ensures Tidy(c, Placed(s, f, e, v))
  {
    assert SlotOk(c, s[f]);
    AlignedDifference(c.page, s[f].internalSize, v.internalSize);
    AlignedSum(c.page, v.internalAddress, v.internalSize);
  }

  lemma PlaceNamed(c: Config, s: seq<Slot>, f: nat, e: nat, v: Slot)
    requires AllNamed(c, s) && CanPlace(s, f, e, v) && Named(c, f, v)
    ensures AllNamed(c, Placed(s, f, e, v))
  {
  }

  lemma MergeNamed(c: Config, s: seq<Slot>, p: nat, q: nat, k: nat)
    requires NamedBut(c, s, k) && CanMerge(s, p, q) && (k == p || k == q)
    ensures NamedBut(c, Merged(s, p, q), p)
  {
  }

  lemma PlaceSpared(c: Config, s: seq<Slot>, f: nat, e: nat, v: Slot, given: iset<int>)
    requires Separate(s) && Spared(c, s, given) && CanPlace(s, f, e, v)
    ensures Spared(c, Placed(s, f, e, v), given + Bytes(v.internalAddress, v.internalSize))
    ensures c.protectFree ==> Bytes(v.internalAddress, v.internalSize) !! given
  {
    if c.protectFree {
      var t := Placed(s, f, e, v);
      assert forall x :: v.Covers(x) ==> s[f].Covers(x);
      forall i, x | 0 <= i < |t| && t[i].mode.Free? && t[i].Covers(x)
        ensures x !in given && !v.Covers(x)
      {
        if i == e && s[f].internalSize > v.internalSize {
          assert s[f].Covers(x);
        } else {
          assert Apart(s[i], s[f]);
        }
      }
    }
  }

  lemma MergeSpared(c: Config, s: seq<Slot>, p: nat, q: nat, given: iset<int>)
    requires Spared(c, s, given) && CanMerge(s, p, q)
    ensures Spared(c, Merged(s, p, q), given)
  {
    if c.protectFree {
      var t := Merged(s, p, q);
      forall i, x | 0 <= i < |t| && t[i].mode.Free? && t[i].Covers(x)
        ensures x !in given
      {
        if i == p { assert s[p].Covers(x) || s[q].Covers(x); } else { assert s[i].Covers(x); }
      }
    }
  }

  lemma PlaceModes(s: seq<Slot>, f: nat, e: nat, v: Slot, m: Mode)
    requires Separate(s) && CanPlace(s, f, e, v) && !m.Free? && !m.NotInUse?
    ensures WithMode(Placed(s, f, e, v), m) == WithMode(s, m) + (if v.mode == m then {v} else {})
    ensures v !in WithMode(s, m)
  {
    var t := Placed(s, f, e, v);
    assert forall j :: 0 <= j < |s| && j != f ==> Apart(s[j], s[f]);
    assert s[f] !in WithMode(s, m);
    forall x | x in WithMode(t, m)
      ensures x in WithMode(s, m) + (if v.mode == m then {v} else {})
    {
      var j :| 0 <= j < |t| && t[j].mode == m && t[j] == x;
      if j != f { assert s[j] == x; }
    }
    forall x | x in WithMode(s, m) + (if v.mode == m then {v} else {})
      ensures x in WithMode(t, m)
    {
      if x in WithMode(s, m) {
        var j :| 0 <= j < |s| && s[j].mode == m && s[j] == x;
        assert t[j] == x;
      } else {
        assert t[f] == x;
      }
    }
  }

  // ---- Releasing and merging ----

  /** Slot `p` absorbs its right neighbour `q`, which becomes empty. */
  function Merged(s: seq<Slot>, p: nat, q: nat): (t: seq<Slot>)
    requires p < |s| && q < |s|
    ensures |t| == |s|
  {
    s[p := s[p].(internalSize := s[p].internalSize + s[q].internalSize)][q := EMPTY_SLOT]
  }

  ghost predicate CanMerge(s: seq<Slot>, p: nat, q: nat) {
    p < |s| && q < |s| && p != q && Mergeable(s[p], s[q])
  }

  lemma NothingPending(s: seq<Slot>, chunks: seq<Chunk>, k: int)
    requires CanonicalBut(s, chunks, k, false, false)
    ensures Canonical(s, chunks)
  {
    hide ChunkStart, Mergeable;
  }

  lemma MergePartition(s: seq<Slot>, chunks: seq<Chunk>, p: nat, q: nat)
    requires Partition(s, chunks) && CanMerge(s, p, q)
    requires forall i :: 0 <= i < |s| && s[i].InUse() ==> s[i].internalSize > 0
    ensures Partition(Merged(s, p, q), chunks)
  {
    var t := Merged(s, p, q);
    forall i, j | 0 <= i < |t| && 0 <= j < |t| && i != j
      ensures Apart(t[i], t[j])
    {
      assert Apart(s[i], s[j]);
      assert i != p ==> Apart(s[i], s[p]);
      assert i != q ==> Apart(s[i], s[q]);
      assert j != p ==> Apart(s[j], s[p]);
      assert j != q ==> Apart(s[j], s[q]);
    }
    forall x: int
      ensures Covered(s, x) <==> Covered(t, x)
    {
      var r := s[p := t[p]];
      CoveredUpdate(s, p, t[p], x);
      CoveredUpdate(r, q, EMPTY_SLOT, x);
      assert r[q] == s[q];
      assert s[p].Covers(x) || s[q].Covers(x) ==> Covered(s, x) && t[p].Covers(x);
      if t[p].Covers(x) { assert Covered(t, x); }
    }
  }

  lemma TidyUpdate(c: Config, s: seq<Slot>, i: nat, v: Slot)
    requires c.page > 0 && Tidy(c, s) && i < |s| && SlotOk(c, v)
    ensures Tidy(c, s[i := v])
  {
  }

  lemma WiderSlotOk(c: Config, a: Slot, b: Slot)
    requires c.page > 0 && SlotOk(c, a) && SlotOk(c, b) && a.Idle() && b.InUse()
    ensures SlotOk(c, a.(internalSize := a.internalSize + b.internalSize))
  {
    AlignedSum(c.page, a.internalSize, b.internalSize);
  }

  lemma MergeTidy(c: Config, s: seq<Slot>, p: nat, q: nat)
    requires c.page > 0 && Tidy(c, s) && CanMerge(s, p, q)
    ensures Tidy(c, Merged(s, p, q))
  {
    var t := Merged(s, p, q);
    WiderSlotOk(c, s[p], s[q]);
    TidyUpdate(c, s, p, t[p]);
    TidyUpdate(c, s[p := t[p]], q, EMPTY_SLOT);
  }

  lemma MergeFenced(c: Config, s: seq<Slot>, p: nat, q: nat, access: iset<int>, used: iset<int>)
    requires Fenced(c, s, access, used) && CanMerge(s, p, q)
    ensures Fenced(c, Merged(s, p, q), access, used)
  {
    var t := Merged(s, p, q);
    assert FencedSlot(c, s[p], access, used) && FencedSlot(c, s[q], access, used);
    assert forall x :: t[p].Covers(x) ==> s[p].Covers(x) || s[q].Covers(x);
  }

  lemma MergeModes(s: seq<Slot>, p: nat, q: nat, m: Mode)
    requires CanMerge(s, p, q) && (m.Allocated? || m.InternalUse?)
    ensures WithMode(Merged(s, p, q), m) == WithMode(s, m)
  {
    var t := Merged(s, p, q);
    forall x | x in WithMode(t, m)
      ensures x in WithMode(s, m)
    {
      var j :| 0 <= j < |t| && t[j].mode == m && t[j] == x;
      assert s[j] == x;
    }
    forall x | x in WithMode(s, m)
      ensures x in WithMode(t, m)
    {
      var j :| 0 <= j < |s| && s[j].mode == m && s[j] == x;
      assert t[j] == x;
    }
  }

  lemma MergeCount(s: seq<Slot>, p: nat, q: nat)
    requires CanMerge(s, p, q)
    ensures CountUnused(Merged(s, p, q)) == CountUnused(s) + 1
  {
    var r := s[p := Merged(s, p, q)[p]];
    CountUpdate(s, p, r[p]);
    CountUpdate(r, q, EMPTY_SLOT);
  }

  /** After the left neighbour was looked at (and merged if it could be), only the right edge is pending. */
  lemma MergeLeftCanonical(s: seq<Slot>, chunks: seq<Chunk>, p: nat, k: nat)
    requires CanonicalBut(s, chunks, k, true, true) && CanMerge(s, p, k)
    ensures CanonicalBut(Merged(s, p, k), chunks, p, false, true)
  {
    var t := Merged(s, p, k);
    forall i, j | 0 <= i < |t| && 0 <= j < |t| && Mergeable(t[i], t[j])
      ensures ChunkStart(chunks, t[j].internalAddress) || i == p
    {
      if i != p { assert Mergeable(s[i], s[j]); }
    }
  }

  lemma KeepLeftCanonical(s: seq<Slot>, chunks: seq<Chunk>, k: nat)
    requires CanonicalBut(s, chunks, k, true, true)
    requires k < |s| && forall i :: 0 <= i < |s| ==> !Mergeable(s[i], s[k])
    ensures CanonicalBut(s, chunks, k, false, true)
  {
  }

  lemma MergeRightCanonical(s: seq<Slot>, chunks: seq<Chunk>, k: nat, q: nat)
    requires CanonicalBut(s, chunks, k, false, true) && CanMerge(s, k, q)
    ensures Canonical(Merged(s, k, q), chunks)
  {
    var t := Merged(s, k, q);
    forall i, j | 0 <= i < |t| && 0 <= j < |t| && Mergeable(t[i], t[j])
      ensures ChunkStart(chunks, t[j].internalAddress)
    {
      if i == k { assert Mergeable(s[q], s[j]); } else { assert Mergeable(s[i], s[j]); }
    }
  }

  lemma ReleaseCanonical(s: seq<Slot>, chunks: seq<Chunk>, k: nat, v: Slot)
    requires Canonical(s, chunks) && k < |s|
    ensures CanonicalBut(s[k := v], chunks, k, true, true)
  {
    var t := s[k := v];
    forall i, j | 0 <= i < |t| && 0 <= j < |t| && Mergeable(t[i], t[j])
      ensures ChunkStart(chunks, t[j].internalAddress) || j == k || i == k
    {
      if i != k && j != k { assert Mergeable(s[i], s[j]); }
    }
  }

  /** Changing a slot without changing its region keeps the partition. */
  lemma RelabelPartition(s: seq<Slot>, chunks: seq<Chunk>, k: nat, v: Slot)
    requires Partition(s, chunks) && k < |s| && s[k].InUse() && v.InUse()
    requires v.internalAddress == s[k].internalAddress && v.internalSize == s[k].internalSize
    ensures Partition(s[k := v], chunks)
  {
    var t := s[k := v];
    forall i, j | 0 <= i < |t| && 0 <= j < |t| && i != j
      ensures Apart(t[i], t[j])
    {
      assert Apart(s[i], s[j]);
    }
    forall x: int
      ensures Covered(s, x) <==> Covered(t, x)
    {
      CoveredUpdate(s, k, v, x);
    }
  }

  lemma RelabelFenced(c: Config, s: seq<Slot>, k: nat, v: Slot, access: iset<int>, used: iset<int>)
    requires Fenced(c, s, access, used) && k < |s| && s[k].Idle() && v.mode == s[k].mode
    requires v.internalAddress == s[k].internalAddress && v.internalSize == s[k].internalSize
    ensures Fenced(c, s[k := v], access, used)
  {
    assert FencedSlot(c, s[k], access, used);
    assert forall x :: v.Covers(x) <==> s[k].Covers(x);
  }

  lemma RelabelCanonical(s: seq<Slot>, chunks: seq<Chunk>, k: nat, v: Slot)
    requires Canonical(s, chunks) && k < |s| && v.mode == s[k].mode
    requires v.internalAddress == s[k].internalAddress && v.internalSize == s[k].internalSize
    ensures Canonical(s[k := v], chunks)
  {
    var t := s[k := v];
    forall i, j | 0 <= i < |t| && 0 <= j < |t| && Mergeable(t[i], t[j])
      ensures ChunkStart(chunks, t[j].internalAddress)
    {
      assert Mergeable(s[i], s[j]);
    }
  }

  lemma ReleaseFenced(c: Config, s: seq<Slot>, k: nat, v: Slot, access: iset<int>, used: iset<int>)
    requires c.page > 0 && Separate(s) && Tidy(c, s) && Fenced(c, s, access, used) && k < |s|
    requires (s[k].mode.Allocated? || s[k].mode.InternalUse?) && v.Idle()
    requires v.internalAddress == s[k].internalAddress && v.internalSize == s[k].internalSize
    ensures Fenced(c, s[k := v], access - Bytes(s[k].internalAddress, s[k].internalSize), used)
  {
    hide SlotOk;
    var access' := access - Bytes(s[k].internalAddress, s[k].internalSize);
    forall i | 0 <= i < |s| && i != k
      ensures FencedSlot(c, s[i], access', used)
    {
      assert Apart(s[i], s[k]);
      FencedFrame(c, s[i], access, used, access', used);
    }
    FencedReleased(c, s[k], v, access, used, access');
  }

  lemma FencedReleased(c: Config, b: Slot, v: Slot, access: iset<int>, used: iset<int>, access': iset<int>)
    requires FencedSlot(c, b, access, used) && (b.mode.Allocated? || b.mode.InternalUse?) && v.Idle()
    requires v.internalAddress == b.internalAddress && v.internalSize == b.internalSize
    requires forall x :: b.Covers(x) ==> x !in access'
    ensures FencedSlot(c, v, access', used)
  {
    assert forall x :: v.Covers(x) <==> b.Covers(x);
  }

  /** Opening or closing access inside an internal slot touches no fence. */
  lemma TableAccessFenced(c: Config, s: seq<Slot>, k: nat, access: iset<int>, used: iset<int>, access': iset<int>)
    requires c.page > 0 && Separate(s) && Tidy(c, s) && Fenced(c, s, access, used)
    requires k < |s| && s[k].mode.InternalUse?
    requires forall x :: !s[k].Covers(x) ==> (x in access' <==> x in access)
    ensures Fenced(c, s, access', used)
  {
    hide SlotOk;
    assert FencedSlot(c, s[k], access, used);
    forall i | 0 <= i < |s| && i != k
      ensures FencedSlot(c, s[i], access', used)
    {
      assert Apart(s[i], s[k]);
      FencedFrame(c, s[i], access, used, access', used);
    }
  }
}
