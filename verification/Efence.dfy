/**
 The Electric Fence allocator: a best-fit page allocator that keeps its own slot table inside the memory it
 manages, grows that table by calling itself, and fences every buffer with an inaccessible page.
 */
module Efence {
  import opened PageMath
  import opened EfenceTable

  /** How a call ends. Every case but `Done` ends the process in the original. */
  datatype Outcome =
    | Done(address: nat)
    | Abort(message: string)
    | OutOfMemory
    | InternalError(message: string)

  // ---- Sizes ----

  function UserSize(c: Config, alignment: nat, size: nat): (r: nat)
    ensures size <= r && (r == size || r < size + alignment)
  {
    if !c.below && alignment > 1 then RoundUp(alignment, size) else size
  }

  function InternalSize(c: Config, alignment: nat, size: nat): (r: nat)
    requires c.page > 0
    ensures UserSize(c, alignment, size) + c.page <= r < UserSize(c, alignment, size) + 2 * c.page
  {
    RoundUp(c.page, UserSize(c, alignment, size) + c.page)
  }

  function ChunkSize(c: Config, needed: nat): (r: nat)
    requires c.page > 0
    ensures needed <= r && 1048576 <= r && (r < needed + c.page || r < 1048576 + c.page)
  {
    RoundUp(c.page, if MEMORY_CREATION_SIZE < needed then needed else MEMORY_CREATION_SIZE)
  }

  /** The slot record written for a new buffer that starts at `start`. */
  function NewSlot(c: Config, start: nat, alignment: nat, size: nat, internal: bool): (b: Slot)
    requires c.page > 0
  {
    var user := UserSize(c, alignment, size);
    var whole := InternalSize(c, alignment, size);
    Slot(if c.below then start + c.page else start + (whole - c.page - user),
         start, user, whole, if internal then InternalUse else Allocated)
  }

  /** The address given to the user lies in the buffer's own slot unless an empty buffer is fenced from below. */
  lemma UserAddressInside(c: Config, start: nat, alignment: nat, size: nat, internal: bool)
    requires c.page > 0
    ensures var b := NewSlot(c, start, alignment, size, internal);
            b.Covers(b.userAddress) <==> !(c.below && size == 0)
  {
    hide RoundUp;
    RoundUpAligned(c.page, UserSize(c, alignment, size) + c.page);
    if c.below && size == 0 {
      AlignedPage(c.page);
      RoundUpAligned(c.page, c.page);
    }
  }

  lemma InternalUserSize(c: Config, start: nat, size: nat)
    requires c.Valid() && Aligned(c.page, size)
    ensures NewSlot(c, start, c.alignment, size, true).userSize == size
  {
    if !c.below && c.alignment > 1 {
      AlignedIsMultiple(c.alignment, c.page);
      AlignedToDivisor(c.page, c.alignment, size);
    }
  }

  lemma NewSlotOk(c: Config, start: nat, alignment: nat, size: nat, internal: bool)
    requires c.Valid() && start > 0 && Aligned(c.page, start)
    requires internal ==> size > 0 && Aligned(c.page, size) && alignment == c.alignment
    ensures SlotOk(c, NewSlot(c, start, alignment, size, internal))
    ensures internal ==> UserSize(c, alignment, size) == size
  {
    hide RoundUp, Aligned, InternalSize, UserSize;
    WholePages(c, alignment, size);
    if internal { TableSlot(c, start, size); }
  }

  lemma WholePages(c: Config, alignment: nat, size: nat)
    requires c.page > 0
    ensures Aligned(c.page, InternalSize(c, alignment, size))
  {
    hide RoundUp, Aligned, UserSize;
    RoundUpAligned(c.page, UserSize(c, alignment, size) + c.page);
  }

  /** The buffer of a table: whole pages, of which one is the dead page. */
  lemma TableSlot(c: Config, start: nat, size: nat)
    requires c.Valid() && Aligned(c.page, start) && Aligned(c.page, size)
    ensures UserSize(c, c.alignment, size) == size && InternalSize(c, c.alignment, size) == size + c.page
    ensures Aligned(c.page, start) && Aligned(c.page, start + c.page)
  {
    hide RoundUp, Aligned;
    InternalUserSize(c, start, size);
    AlignedPage(c.page);
    AlignedSum(c.page, start, c.page);
    AlignedSum(c.page, size, c.page);
    RoundUpAligned(c.page, size + c.page);
  }

  // ---- Table searches ----

  /** The first slot with the user address, or -1. */
  function Holder(s: seq<Slot>, address: nat): (k: int)
    ensures -1 <= k < |s|
    ensures k >= 0 ==> s[k].userAddress == address
    ensures forall i :: 0 <= i < (if k < 0 then |s| else k) ==> s[i].userAddress != address
  {
    if s == [] then -1
    else
      var n := |s| - 1;
      var k := Holder(s[..n], address);
      if k >= 0 then k else if s[n].userAddress == address then n else -1
  }

  method SlotForUserAddress(slots: seq<Slot>, address: nat) returns (k: int)
    ensures k == Holder(slots, address)
    ensures -1 <= k < |slots|
    ensures k >= 0 ==> slots[k].userAddress == address
    ensures forall i :: 0 <= i < (if k < 0 then |slots| else k) ==> slots[i].userAddress != address
  {
    for i := 0 to |slots|
      invariant forall j :: 0 <= j < i ==> slots[j].userAddress != address
    {
      if slots[i].userAddress == address { return i; }
    }
    return -1;
  }

  /** The first slot that starts at the address, or -1. */
  function StartingAt(s: seq<Slot>, address: nat): (k: int)
    ensures -1 <= k < |s|
    ensures k >= 0 ==> s[k].internalAddress == address
    ensures forall i :: 0 <= i < (if k < 0 then |s| else k) ==> s[i].internalAddress != address
  {
    if s == [] then -1
    else
      var n := |s| - 1;
      var k := StartingAt(s[..n], address);
      if k >= 0 then k else if s[n].internalAddress == address then n else -1
  }

  /** The first slot that ends at the address, or -1. */
  function EndingAt(s: seq<Slot>, address: nat): (k: int)
    ensures -1 <= k < |s|
    ensures k >= 0 ==> s[k].End() == address
    ensures forall i :: 0 <= i < (if k < 0 then |s| else k) ==> s[i].End() != address
  {
    if s == [] then -1
    else
      var n := |s| - 1;
      var k := EndingAt(s[..n], address);
      if k >= 0 then k else if s[n].End() == address then n else -1
  }

  method SlotForInternalAddress(slots: seq<Slot>, address: nat) returns (k: int)
    ensures k == StartingAt(slots, address)
    ensures -1 <= k < |slots|
    ensures k >= 0 ==> slots[k].internalAddress == address
    ensures forall i :: 0 <= i < (if k < 0 then |slots| else k) ==> slots[i].internalAddress != address
  {
    for i := 0 to |slots|
      invariant forall j :: 0 <= j < i ==> slots[j].internalAddress != address
    {
      if slots[i].internalAddress == address { return i; }
    }
    return -1;
  }

  method SlotForInternalAddressPreviousTo(slots: seq<Slot>, address: nat) returns (k: int)
    ensures k == EndingAt(slots, address)
    ensures -1 <= k < |slots|
    ensures k >= 0 ==> slots[k].End() == address
    ensures forall i :: 0 <= i < (if k < 0 then |slots| else k) ==> slots[i].End() != address
  {
    for i := 0 to |slots|
      invariant forall j :: 0 <= j < i ==> slots[j].End() != address
    {
      if slots[i].End() == address { return i; }
    }
    return -1;
  }

  predicate Fits(b: Slot, size: nat) {
    b.mode.Free? && b.internalSize >= size
  }

  /** The first among the smallest free slots that fit, or -1. */
  function BestIndex(s: seq<Slot>, size: nat): (k: int)
    ensures -1 <= k < |s|
    ensures k >= 0 ==> Fits(s[k], size)
  {
    if s == [] then -1
    else
      var n := |s| - 1;
      var k := BestIndex(s[..n], size);
      if Fits(s[n], size) && (k < 0 || s[n].internalSize < s[k].internalSize) then n else k
  }

  /** What that means, and that nothing else means the same. */
  predicate IsBest(s: seq<Slot>, size: nat, k: int) {
    && -1 <= k < |s|
    && (k < 0 ==> forall i :: 0 <= i < |s| ==> !Fits(s[i], size))
    && (k >= 0 ==> Fits(s[k], size))
    && (k >= 0 ==> forall i :: 0 <= i < |s| && Fits(s[i], size) ==> s[k].internalSize <= s[i].internalSize)
    && (k >= 0 ==> forall i :: 0 <= i < k && Fits(s[i], size) ==> s[k].internalSize < s[i].internalSize)
  }

  lemma {:induction false} BestIndexIsBest(s: seq<Slot>, size: nat)
    ensures IsBest(s, size, BestIndex(s, size))
  {
    if s != [] { BestIndexIsBest(s[..|s| - 1], size); }
  }

  lemma OnlyOneIsBest(s: seq<Slot>, size: nat, k: int)
    requires IsBest(s, size, k)
    ensures k == BestIndex(s, size)
  {
    hide BestIndex;
    BestIndexIsBest(s, size);
  }

  /** The first empty slot, or -1. */
  function FirstEmpty(s: seq<Slot>): (k: int)
    ensures -1 <= k < |s|
    ensures k >= 0 ==> !s[k].InUse()
    ensures forall i :: 0 <= i < (if k < 0 then |s| else k) ==> s[i].InUse()
  {
    if s == [] then -1
    else
      var n := |s| - 1;
      var k := FirstEmpty(s[..n]);
      if k >= 0 then k else if s[n].InUse() then -1 else n
  }

  /**
   The allocation scan: `full` is the first among the smallest free slots that fit, `e0` and `e1` are empty slots.
   The scan may stop early on an exact fit; it still never misses a better slot or an empty slot it needs.
   */
  method BestFit(slots: seq<Slot>, size: nat) returns (full: int, e0: int, e1: int)
    ensures full == BestIndex(slots, size) && IsBest(slots, size, full)
    ensures e0 == FirstEmpty(slots) && -1 <= e1 < |slots|
    ensures e1 >= 0 ==> !slots[e1].InUse() && e1 != e0 && forall j :: 0 <= j < e1 && j != e0 ==> slots[j].InUse()
    ensures CountUnused(slots) >= 1 ==> e0 >= 0
    ensures full < 0 && CountUnused(slots) >= 2 ==> e1 >= 0
  {
    hide BestIndex, FirstEmpty;
    full, e0, e1 := -1, -1, -1;
    var i := 0;
    while i < |slots|
      invariant 0 <= i <= |slots|
      invariant -1 <= full < i && -1 <= e0 < i && -1 <= e1 < i
      invariant full < 0 ==> forall j :: 0 <= j < i ==> !Fits(slots[j], size)
      invariant full >= 0 ==> Fits(slots[full], size)
      invariant full >= 0 ==> forall j :: 0 <= j < i && Fits(slots[j], size) ==>
                                slots[full].internalSize <= slots[j].internalSize
      invariant full >= 0 ==> forall j :: 0 <= j < full && Fits(slots[j], size) ==>
                                slots[full].internalSize < slots[j].internalSize
      invariant e0 >= 0 ==> !slots[e0].InUse()
      invariant forall j :: 0 <= j < (if e0 < 0 then i else e0) ==> slots[j].InUse()
      invariant e1 >= 0 ==> !slots[e1].InUse() && e1 != e0 && e0 >= 0
      invariant e0 >= 0 ==> forall j :: 0 <= j < (if e1 < 0 then i else e1) && j != e0 ==> slots[j].InUse()
      invariant e0 < 0 ==> CountUnused(slots[..i]) == 0
      invariant e1 < 0 ==> CountUnused(slots[..i]) <= 1
    {
      assert slots[..i + 1][..i] == slots[..i];
      if slots[i].mode.Free? && slots[i].internalSize >= size {
        if full < 0 || slots[i].internalSize < slots[full].internalSize {
          full := i;
          if slots[i].internalSize == size && e0 >= 0 {
            OnlyOneIsBest(slots, size, full);
            return;
          }
        }
      } else if slots[i].mode.NotInUse? {
        if e0 < 0 {
          e0 := i;
        } else if e1 < 0 {
          e1 := i;
        } else if full >= 0 && slots[full].internalSize == size {
          OnlyOneIsBest(slots, size, full);
          return;
        }
      }
      i := i + 1;
    }
    assert slots[..i] == slots;
    OnlyOneIsBest(slots, size, full);
  }

  // ---- The allocator as a function of the chunks it is granted ----

  /** What decides the next step: the slot table and where it is. */
  datatype Plan = Plan(slots: seq<Slot>, listAddress: nat, listSize: nat)

  /** An answer, the plan after it and the chunks that were obtained for it. */
  datatype Turn = Turn(answer: Outcome, plan: Plan, made: seq<Chunk>)

  /** Where a buffer goes: the table with the buffer in it, the buffer, and the chunk obtained for it, if any. */
  datatype Spot = Spot(slots: seq<Slot>, buffer: Slot, made: seq<Chunk>) | NoRoom | NoSlot

  const ZERO_SIZE := "Allocating 0 bytes, probably a bug."
  const NOT_OURS := "free(): address not from malloc()."
  const NOT_IN_USE := "free(): freeing free memory."
  const CANNOT_RESIZE := "realloc(): address not from malloc()."
  const NO_EMPTY_SLOT := "No empty slot."

  predicate TooFew(s: seq<Slot>) { CountUnused(s) < 7 }

  /** The places at which the system grants chunks are all that is not decided by the plan. */
  function Bases(cs: seq<Chunk>): (r: seq<nat>)
    ensures |r| == |cs| && forall i :: 0 <= i < |cs| ==> r[i] == cs[i].base
  {
    seq(|cs|, i requires 0 <= i < |cs| => cs[i].base)
  }

  function Added(before: seq<Chunk>, after: seq<Chunk>): seq<Chunk> {
    if |before| <= |after| then after[|before|..] else []
  }

  /** The chunk obtained when nothing fits and the system grants one. */
  function Made(c: Config, s: seq<Slot>, needed: nat, grants: seq<nat>): (made: seq<Chunk>)
    requires c.page > 0
    ensures |made| <= 1 && |made| <= |grants| && Bases(made) == grants[..|made|]
  {
    if HasFit(s, needed) || grants == [] then [] else [Chunk(grants[0], ChunkSize(c, needed))]
  }

  /** The table with that chunk in its first empty slot. */
  function Stocked(s: seq<Slot>, made: seq<Chunk>): seq<Slot> {
    var e := FirstEmpty(s);
    if e < 0 || made == [] then s else s[e := Slot(0, made[0].base, 0, made[0].size, Free)]
  }

  /** The buffer is cut from the first smallest free slot that fits, and the surplus goes to the first empty slot. */
  function SpotFor(c: Config, s: seq<Slot>, alignment: nat, size: nat, internal: bool, grants: seq<nat>): (r: Spot)
    requires c.page > 0
    ensures r.Spot? ==> |r.made| <= |grants| && Bases(r.made) == grants[..|r.made|]
  {
    var n := InternalSize(c, alignment, size);
    var made := Made(c, s, n, grants);
    var t := Stocked(s, made);
    var k, e := BestIndex(t, n), FirstEmpty(t);
    if k < 0 then NoRoom
    else if e < 0 then NoSlot
    else
      var b := NewSlot(c, t[k].internalAddress, alignment, size, internal);
      Spot(Placed(t, k, e, b), b, made)
  }

  /** The table, with one more page of empty slots, is moved to the address and its old place is given back. */
  function MovedPlan(c: Config, p: Plan, address: nat): Plan
    requires c.page > 0
  {
    var t := p.slots + EmptySlots(c.page / SLOT_BYTES);
    var h := Holder(t, p.listAddress);
    if h < 0 then p else Plan(FreedTable(c, t, h), address, p.listSize + c.page)
  }

  /** A table one page larger is allocated and takes over. */
  function Grow(c: Config, p: Plan, grants: seq<nat>): (t: Turn)
    requires c.page > 0
    ensures |t.made| <= |grants| && Bases(t.made) == grants[..|t.made|]
  {
    match SpotFor(c, p.slots, c.alignment, p.listSize + c.page, true, grants)
    case NoRoom => Turn(OutOfMemory, p, [])
    case NoSlot => Turn(InternalError(NO_EMPTY_SLOT), p, [])
    case Spot(slots, b, made) => Turn(Done(0), MovedPlan(c, p.(slots := slots), b.userAddress), made)
  }

  /** An allocation grows the table first when it is short of empty slots. */
  function Ready(c: Config, p: Plan, grants: seq<nat>): (t: Turn)
    requires c.page > 0
    ensures |t.made| <= |grants| && Bases(t.made) == grants[..|t.made|]
  {
    if TooFew(p.slots) then Grow(c, p, grants) else Turn(Done(0), p, [])
  }

  /** malloc and memalign. */
  function Allot(c: Config, p: Plan, alignment: nat, size: nat, grants: seq<nat>): (t: Turn)
    requires c.page > 0
    ensures |t.made| <= |grants|
  {
    if size == 0 && !c.allowZero then Turn(Abort(ZERO_SIZE), p, [])
    else
      var g := Ready(c, p, grants);
      if !g.answer.Done? then g
      else
        match SpotFor(c, g.plan.slots, alignment, size, false, grants[|g.made|..])
        case NoRoom => Turn(OutOfMemory, p, g.made)
        case NoSlot => Turn(InternalError(NO_EMPTY_SLOT), p, g.made)
        case Spot(slots, b, made) => Turn(Done(b.userAddress), g.plan.(slots := slots), g.made + made)
  }

  /** free. */
  function GiveBack(c: Config, p: Plan, address: nat): Turn {
    var k := Holder(p.slots, address);
    if address == 0 then Turn(Done(0), p, [])
    else if k < 0 then Turn(Abort(NOT_OURS), p, [])
    else if !p.slots[k].mode.Allocated? then Turn(Abort(NOT_IN_USE), p, [])
    else Turn(Done(0), p.(slots := FreedTable(c, p.slots, k)), [])
  }

  /** realloc. */
  function Resize(c: Config, p: Plan, address: nat, size: nat, grants: seq<nat>): (t: Turn)
    requires c.page > 0
    ensures |t.made| <= |grants|
  {
    var t := Allot(c, p, c.alignment, size, grants);
    if !t.answer.Done? || address == 0 then t
    else if Holder(t.plan.slots, address) < 0 then t.(answer := Abort(CANNOT_RESIZE))
    else
      var f := GiveBack(c, t.plan, address);
      if f.answer.Done? then t.(plan := f.plan) else t.(answer := f.answer)
  }

  /** The answer and the chunks obtained are those of the turn and, while the process lives, so is the plan. */
  predicate Follows(o: Outcome, p: Plan, made: seq<Chunk>, t: Turn) {
    o == t.answer && made == t.made && (o.Done? ==> p == t.plan)
  }

  /** An allocation must ask for memory: no free slot can hold the larger table it needs first, or the buffer. */
  predicate NeedsMemory(c: Config, p: Plan, alignment: nat, size: nat)
    requires c.page > 0
  {
    || (TooFew(p.slots) && !HasFit(p.slots, InternalSize(c, c.alignment, p.listSize + c.page)))
    || !HasFit(Ready(c, p, []).plan.slots, InternalSize(c, alignment, size))
  }

  /** Only the grants that are used matter. */
  lemma SpotUses(c: Config, s: seq<Slot>, alignment: nat, size: nat, internal: bool, g: seq<nat>, h: seq<nat>)
    requires c.page > 0
    ensures var r := SpotFor(c, s, alignment, size, internal, g);
            r.Spot? && |r.made| <= |h| && h[..|r.made|] == g[..|r.made|] ==>
              SpotFor(c, s, alignment, size, internal, h) == r
  {
    hide BestIndex, FirstEmpty, HasFit, InternalSize, ChunkSize, NewSlot;
    FitIsBest(s, InternalSize(c, alignment, size));
  }

  lemma ReadyUses(c: Config, p: Plan, g: seq<nat>, h: seq<nat>)
    requires c.page > 0
    ensures var t := Ready(c, p, g);
            t.answer.Done? && |t.made| <= |h| && h[..|t.made|] == g[..|t.made|] ==> Ready(c, p, h) == t
  {
    hide SpotFor, MovedPlan, TooFew;
    SpotUses(c, p.slots, c.alignment, p.listSize + c.page, true, g, h);
  }

  lemma AllotUses(c: Config, p: Plan, alignment: nat, size: nat, g: seq<nat>, h: seq<nat>)
    requires c.page > 0
    ensures var t := Allot(c, p, alignment, size, g);
            t.answer.Done? ==>
              && Bases(t.made) == g[..|t.made|]
              && (|t.made| <= |h| && h[..|t.made|] == g[..|t.made|] ==> Allot(c, p, alignment, size, h) == t)
  {
    hide SpotFor, Ready;
    var t := Allot(c, p, alignment, size, g);
    if t.answer.Done? {
      var r := Ready(c, p, g);
      var n, m := |r.made|, |t.made|;
      SpotUses(c, r.plan.slots, alignment, size, false, g[n..], if n <= |h| then h[n..] else []);
      assert t.made == r.made + SpotFor(c, r.plan.slots, alignment, size, false, g[n..]).made;
      assert Bases(t.made) == g[..n] + g[n..][..m - n] == g[..m];
      if m <= |h| && h[..m] == g[..m] {
        assert h[..n] == h[..m][..n] == g[..m][..n] == g[..n];
        assert h[n..][..m - n] == h[..m][n..] == g[..m][n..] == g[n..][..m - n];
        ReadyUses(c, p, g, h);
      }
    }
  }

  /** A forbidden size, or a table that cannot grow. */
  lemma EndsEarly(c: Config, p: Plan, alignment: nat, size: nat)
    requires c.page > 0
    ensures forall g :: size == 0 && !c.allowZero ==> Allot(c, p, alignment, size, g) == Turn(Abort(ZERO_SIZE), p, [])
    ensures forall g :: (size > 0 || c.allowZero) && !Ready(c, p, g).answer.Done? ==>
              Allot(c, p, alignment, size, g) == Ready(c, p, g)
  {
    hide Ready, SpotFor;
  }

  lemma AddedTwice(a: seq<Chunk>, b: seq<Chunk>, d: seq<Chunk>)
    requires a <= b <= d
    ensures Added(a, d) == Added(a, b) + Added(b, d) && (a == b ==> Added(a, b) == [])
    ensures d == a <==> Added(a, d) == []
  {
  }

  /** First the chunk for a larger table, then the one for the buffer. */
  lemma InTwoSteps(c: Config, p: Plan, between: Plan, alignment: nat, size: nat, first: seq<Chunk>, second: seq<Chunk>)
    requires c.page > 0 && (size > 0 || c.allowZero)
    requires Ready(c, p, Bases(first)) == Turn(Done(0), between, first)
    ensures Allot(c, p, alignment, size, Bases(first + second)) ==
              match SpotFor(c, between.slots, alignment, size, false, Bases(second))
              case NoRoom => Turn(OutOfMemory, p, first)
              case NoSlot => Turn(InternalError(NO_EMPTY_SLOT), p, first)
              case Spot(slots, b, made) => Turn(Done(b.userAddress), between.(slots := slots), first + made)
  {
    hide SpotFor, Ready;
    assert Bases(first + second) == Bases(first) + Bases(second);
    ReadyUses(c, p, Bases(first), Bases(first) + Bases(second));
    assert (Bases(first) + Bases(second))[|first|..] == Bases(second);
  }

  /** The process ends for lack of memory only where memory had to be asked for, and otherwise none is obtained. */
  lemma RefusedOnlyInNeed(c: Config, p: Plan, alignment: nat, size: nat, grants: seq<nat>)
    requires c.page > 0 && !NeedsMemory(c, p, alignment, size)
    ensures var t := Allot(c, p, alignment, size, grants);
            !t.answer.OutOfMemory? && t.made == [] && t == Allot(c, p, alignment, size, [])
  {
    hide BestIndex, FirstEmpty, HasFit, InternalSize, ChunkSize, NewSlot, MovedPlan, CountUnused;
    FitIsBest(p.slots, InternalSize(c, c.alignment, p.listSize + c.page));
    FitIsBest(Ready(c, p, []).plan.slots, InternalSize(c, alignment, size));
    assert Ready(c, p, grants) == Ready(c, p, []);
    assert grants[0..] == grants;
  }

  predicate HasFit(s: seq<Slot>, size: nat) {
    exists i :: 0 <= i < |s| && Fits(s[i], size)
  }

  /** Where nothing fitted, a fresh chunk is the best slot, and the next empty slot is the first one left. */
  lemma OnlyFit(s: seq<Slot>, t: seq<Slot>, e0: nat, e1: nat, size: nat)
    requires e0 < |s| == |t| && e1 < |s| && e0 == FirstEmpty(s) && !HasFit(s, size)
    requires t == s[e0 := t[e0]] && Fits(t[e0], size)
    requires e1 != e0 && !s[e1].InUse() && forall j :: 0 <= j < e1 && j != e0 ==> s[j].InUse()
    ensures BestIndex(t, size) == e0 && FirstEmpty(t) == e1
  {
    hide BestIndex, FirstEmpty;
    assert forall i :: 0 <= i < |s| && i != e0 ==> t[i] == s[i];
    OnlyOneIsBest(t, size, e0);
  }

  lemma FitIsBest(s: seq<Slot>, size: nat)
    ensures HasFit(s, size) <==> BestIndex(s, size) >= 0
  {
    hide BestIndex;
    BestIndexIsBest(s, size);
  }

  /** The buffer's address is a real one, and none of the others has it. */
  ghost predicate NewTo(bs: set<Slot>, b: Slot) {
    b.userAddress != 0 && forall o :: o in bs ==> o.userAddress != b.userAddress
  }

  /** No byte of the buffer that had this address can be touched. */
  ghost predicate Closed(s: seq<Slot>, address: nat, access: iset<int>) {
    forall b, x :: b in WithMode(s, Allocated) && b.userAddress == address && b.Covers(x) ==> x !in access
  }

  /** The buffer's bytes join the history and, where freed memory is protected, are in no earlier buffer. */
  ghost predicate GivesAnew(c: Config, before: iset<int>, after: iset<int>, b: Slot) {
    && before <= after && Bytes(b.internalAddress, b.internalSize) <= after
    && (c.protectFree ==> Bytes(b.internalAddress, b.internalSize) !! before)
  }

  ghost function Without(bs: set<Slot>, address: nat): set<Slot> {
    set b | b in bs && b.userAddress != address
  }

  // ---- The allocator ----

  /** The allocator's state as a value, with the history the proofs need. */
  datatype Arena = Arena(
    slots: seq<Slot>, chunks: seq<Chunk>, access: iset<int>, used: iset<int>,
    unUsed: nat, listAddress: nat, listSize: nat, perPage: nat, table: Slot, given: iset<int>)

  ghost predicate Good(c: Config, a: Arena) {
    && c.Valid()
    && Intact(c, a.slots, a.chunks, a.access, a.used)
    && AllNamed(c, a.slots)
    && a.given <= a.used && Spared(c, a.slots, a.given)
    && a.unUsed == CountUnused(a.slots)
    && a.perPage == c.page / SLOT_BYTES
    && |a.slots| * SLOT_BYTES <= a.listSize
    && a.table in WithMode(a.slots, InternalUse)
    && a.table.userAddress == a.listAddress
    && a.table.userSize == a.listSize
  }

  class Allocator {
    const cfg: Config
    var slots: seq<Slot>
    var listAddress: nat
    var listSize: nat
    var slotCount: nat
    var unUsedSlots: nat
    var slotsPerPage: nat
    var internalUse: bool
    var noListProtection: bool
    /** Everything the operating system has handed out so far. */
    var chunks: seq<Chunk>
    /** The bytes the program may touch now, and the bytes that were part of some buffer at some time. */
    ghost var access: iset<int>
    ghost var used: iset<int>
    /** The bytes that were part of some buffer or table: `used` without the memory denied at start-up. */
    ghost var given: iset<int>
    /** The slot that holds the current slot table. */
    ghost var tableSlot: Slot

    ghost function View(): Arena
      reads this
    {
      Arena(slots, chunks, access, used, unUsedSlots, listAddress, listSize, slotsPerPage, tableSlot, given)
    }

    ghost function Layout(): Plan
      reads this
    {
      Plan(slots, listAddress, listSize)
    }

    /** Where the slot table is. */
    ghost function Listing(): (nat, nat, int, Slot)
      reads this
    {
      (listAddress, listSize, |slots|, tableSlot)
    }

    /** What holds at every step, also inside a call. */
    ghost predicate Core()
      reads this
    {
      cfg.Valid() && slotCount == |slots| && Good(cfg, View())
    }

    ghost function Buffers(): set<Slot>
      reads this
    {
      WithMode(slots, Allocated)
    }

    /** What holds between public calls. */
    ghost predicate Valid()
      reads this
    {
      && Core()
      && !internalUse
      && !noListProtection
      && unUsedSlots >= 5
      && WithMode(slots, InternalUse) == {tableSlot}
    }

    /** The slot table itself is out of the program's reach. */
    ghost predicate Sealed()
      reads this
    {
      forall x :: listAddress <= x < listAddress + listSize ==> x !in access
    }

    /** Start-up: one chunk, its first page holds the table, the rest is free and inaccessible. */
    constructor (cfg: Config, base: nat)
      requires cfg.Valid() && base > 0 && Aligned(cfg.page, base)
      ensures Valid() && this.cfg == cfg
      ensures Buffers() == {}
      ensures chunks == [Chunk(base, ChunkSize(cfg, 0))] && FirstTable(cfg, base, slots)
      ensures listAddress == base && listSize == cfg.page && |slots| == cfg.page / 40
      ensures tableSlot == Slot(base, base, cfg.page, cfg.page, InternalUse) && unUsedSlots == cfg.page / SLOT_BYTES - 2
    {
      var size := ChunkSize(cfg, 0);
      var n := cfg.page / SLOT_BYTES;
      this.cfg := cfg;
      slotsPerPage, slotCount := n, n;
      listSize, listAddress := cfg.page, base;
      internalUse, noListProtection := false, false;
      chunks := [Chunk(base, size)];
      var table := Slot(base, base, cfg.page, cfg.page, InternalUse);
      var rest := Slot(base + cfg.page, base + cfg.page, size - cfg.page, size - cfg.page, Mode.Free);
      slots := [table, rest] + EmptySlots(n - 2);
      access := Bytes(base, cfg.page);
      used, given := Bytes(base, size), Bytes(base, cfg.page);
      tableSlot := table;
      unUsedSlots := n - 2;
      new;
      assert FirstTable(cfg, base, slots);
      FirstTidy(cfg, base, slots);
      FirstPartition(cfg, base, slots, chunks);
      FirstFenced(cfg, base, slots);
      FirstCount(cfg, slots);
    }

    /** mmap returns a page-aligned range that overlaps nothing handed out before, or the process exits. */
    method PageCreate(size: nat) returns (ok: bool, base: nat)
      requires cfg.Valid() && size > 0
      modifies this`chunks, this`access
      ensures !ok ==> chunks == old(chunks) && access == old(access)
      ensures ok ==> base > 0 && Aligned(cfg.page, base)
      ensures ok ==> chunks == old(chunks) + [Chunk(base, size)]
      ensures ok ==> access == old(access) + Bytes(base, size)
      ensures ok ==> forall x :: Chunk(base, size).Covers(x) ==> !Mapped(old(chunks), x)
    {
      base := *;
      ok := base > 0 && Aligned(cfg.page, base)
      && forall k :: 0 <= k < |chunks| ==> chunks[k].base + chunks[k].size <= base || base + size <= chunks[k].base;
      if ok {
        chunks := chunks + [Chunk(base, size)];
        access := access + Bytes(base, size);
      }
    }

    method PageAllowAccess(address: nat, size: nat)
      requires cfg.Valid() && Aligned(cfg.page, address) && Aligned(cfg.page, size)
      modifies this`access
      ensures access == old(access) + Bytes(address, size)
    {
      access := access + Bytes(address, size);
    }

    /** Page_DenyAccess, and Page_Delete, which also drops the contents. */
    method PageDenyAccess(address: nat, size: nat)
      requires cfg.Valid() && Aligned(cfg.page, address) && Aligned(cfg.page, size)
      modifies this`access
      ensures access == old(access) - Bytes(address, size)
    {
      access := access - Bytes(address, size);
    }

    method AllowList()
      requires Core()
      modifies this`access
      ensures Core() && access == old(access) + Bytes(listAddress, listSize)
    {
      hide Good, Aligned;
      TableAligned(cfg, View());
      ListAccess(cfg, View(), View().access + Bytes(listAddress, listSize));
      PageAllowAccess(listAddress, listSize);
    }

    method DenyList()
      requires Core()
      modifies this`access
      ensures Core() && Sealed() && access == old(access) - Bytes(listAddress, listSize)
    {
      hide Good, Aligned;
      TableAligned(cfg, View());
      ListAccess(cfg, View(), View().access - Bytes(listAddress, listSize));
      PageDenyAccess(listAddress, listSize);
    }

    /** No free slot fits: a fresh chunk goes into the empty slot `e` as free memory. */
    method CreateMemory(e: nat, needed: nat) returns (ok: bool)
      requires Core() && e < |slots| && !slots[e].InUse() && needed > 0
      modifies this`chunks, this`access, this`slots, this`unUsedSlots
      ensures ok ==> Core() && |chunks| == |old(chunks)| + 1
      ensures ok ==> var ch := chunks[|old(chunks)|];
                     && chunks == old(chunks) + [ch] && ch.size == ChunkSize(cfg, needed)
                     && slots == old(slots)[e := Slot(0, ch.base, 0, ch.size, Mode.Free)]
      ensures !ok ==> chunks == old(chunks)
      ensures ok ==> unUsedSlots == old(unUsedSlots) - 1
      ensures ok ==> WithMode(slots, Allocated) == old(WithMode(slots, Allocated))
      ensures ok ==> WithMode(slots, InternalUse) == old(WithMode(slots, InternalUse))
    {
      hide Good, WithMode, ChunkSize;
      EmptySlotIsZero(cfg, View(), e);
      var chunkSize := ChunkSize(cfg, needed);
      var base: nat;
      ok, base := PageCreate(chunkSize);
      if !ok { return; }
      slots := slots[e := slots[e].(internalAddress := base, internalSize := chunkSize, mode := Mode.Free)];
      unUsedSlots := unUsedSlots - 1;
      AddChunkGood(cfg, old(View()), e, Chunk(base, chunkSize), needed);
    }

    /** Allow access to the live pages of a buffer, deny its dead page, and find the user's address. */
    method SetFences(start: nat, whole: nat, user: nat) returns (address: nat)
      requires cfg.Valid() && whole >= user + cfg.page
      requires Aligned(cfg.page, start) && Aligned(cfg.page, cfg.page) && Aligned(cfg.page, start + cfg.page)
      requires Aligned(cfg.page, whole - cfg.page) && Aligned(cfg.page, start + (whole - cfg.page))
      modifies this`access
      ensures address == if cfg.below then start + cfg.page else start + (whole - cfg.page - user)
      ensures access == FencedAccess(cfg, old(access), start, whole)
    {
      address := start;
      if !cfg.below {
        if whole - cfg.page > 0 { PageAllowAccess(address, whole - cfg.page); }
        address := address + (whole - cfg.page);
        PageDenyAccess(address, cfg.page);
        address := address - user;
      } else {
        PageDenyAccess(address, cfg.page);
        address := address + cfg.page;
        if whole - cfg.page > 0 { PageAllowAccess(address, whole - cfg.page); }
      }
    }

    /** Mark slot `f` as taken, cut it down to `size` bytes and leave the surplus as free memory in slot `e`. */
    method Carve(f: nat, e: nat, size: nat)
      requires f < |slots| && e < |slots| && f != e
      requires slots[f].internalSize >= size && slots[e] == EMPTY_SLOT && unUsedSlots >= 1
      modifies this`slots, this`unUsedSlots
      ensures slots == Placed(old(slots), f, e, old(slots[f]).(
                                internalSize := size, mode := if internalUse then InternalUse else Allocated))
      ensures unUsedSlots == old(unUsedSlots) - (if old(slots[f].internalSize) > size then 1 else 0)
    {
      if internalUse {
        slots := slots[f := slots[f].(mode := InternalUse)];
      } else {
        slots := slots[f := slots[f].(mode := Allocated)];
      }
      if slots[f].internalSize > size {
        slots := slots[e := slots[e].(internalSize := slots[f].internalSize - size,
                                      internalAddress := slots[f].internalAddress + size,
                                      mode := Mode.Free)];
        slots := slots[f := slots[f].(internalSize := size)];
        unUsedSlots := unUsedSlots - 1;
      }
    }

    /** Turn the free slot `f` into a buffer, split off what is left over, and set up live and dead pages. */
    method Place(f: nat, e: nat, alignment: nat, size: nat) returns (ghost b: Slot)
      requires Core() && Placeable(cfg, slots, f, e, alignment, size, internalUse)
      modifies this`slots, this`unUsedSlots, this`access, this`used, this`given
      ensures Core() && |slots| == |old(slots)|
      ensures b == NewSlot(cfg, old(slots[f].internalAddress), alignment, size, internalUse)
      ensures CanPlace(old(slots), f, e, b) && slots == Placed(old(slots), f, e, b)
      ensures slots[f] == b && b !in old(WithMode(slots, Allocated)) && b !in old(WithMode(slots, InternalUse))
      ensures used == old(used) + Bytes(b.internalAddress, b.internalSize) && GivesAnew(cfg, old(given), given, b)
      ensures unUsedSlots >= old(unUsedSlots) - 1
      ensures WithMode(slots, Allocated) == old(WithMode(slots, Allocated)) + (if internalUse then {} else {b})
      ensures WithMode(slots, InternalUse) == old(WithMode(slots, InternalUse)) + (if internalUse then {b} else {})
    {
      hide Good, WithMode, InternalSize, UserSize, Aligned, SlotOk, FencedAccess, CanPlace;
      PlaceReady(cfg, View(), f, e, alignment, size, internalUse);
      PlaceGood(cfg, View(), f, e, alignment, size, internalUse);
      b := NewSlot(cfg, slots[f].internalAddress, alignment, size, internalUse);
      var userSize := UserSize(cfg, alignment, size);
      var internalSize := InternalSize(cfg, alignment, size);
      Carve(f, e, internalSize);
      var address := SetFences(slots[f].internalAddress, internalSize, userSize);
      slots := slots[f := slots[f].(userAddress := address, userSize := userSize)];
      used := used + Bytes(b.internalAddress, b.internalSize);
      given := given + Bytes(b.internalAddress, b.internalSize);
      assert slots == Placed(old(slots), f, e, b);
    }

    /** First part of free: relabel the slot and take away access to all of its pages. */
    method Release(k: nat)
      requires Core() && Releasable(View(), k)
      modifies this`slots, this`access
      ensures View() == Released(cfg, old(View()), k)
      ensures cfg.Valid() && Pending(cfg, View(), k, true, true)
    {
      hide Good, Pending, Aligned, Bytes;
      ReleasePending(cfg, View(), k);
      if cfg.protectFree {
        slots := slots[k := slots[k].(mode := Protected)];
      } else {
        slots := slots[k := slots[k].(mode := Mode.Free)];
      }
      PageDenyAccess(slots[k].internalAddress, slots[k].internalSize);
    }

    method CoalescePrevious(k: nat, previous: int) returns (cur: nat)
      requires Pending(cfg, View(), k, true, true) && PreviousFound(slots, k, previous)
      modifies this`slots, this`unUsedSlots
      ensures cur < |slots| && Pending(cfg, View(), cur, false, true)
      ensures |slots| == |old(slots)|
      ensures forall q :: NextFound(old(slots), k, q) ==> NextFound(slots, cur, q)
      ensures var joins := Joins(old(slots), previous, k);
              && cur == (if joins then previous else k)
              && slots == (if joins then Merged(old(slots), previous, k) else old(slots))
      ensures unUsedSlots >= old(unUsedSlots)
      ensures WithMode(slots, Allocated) == old(WithMode(slots, Allocated))
      ensures WithMode(slots, InternalUse) == old(WithMode(slots, InternalUse))
    {
      hide Pending, WithMode;
      cur := k;
      if previous >= 0 && slots[previous].mode == slots[k].mode {
        NeighboursMerge(cfg, View(), k, true, previous, k);
        MergeLeftPending(cfg, View(), previous, k);
        NextSurvivesMerge(cfg, View(), previous, k);
        slots := slots[previous :=
          slots[previous].(internalSize := slots[previous].internalSize + slots[k].internalSize)];
        slots := slots[k := slots[k].(internalAddress := 0, userAddress := 0)];
        slots := slots[k := slots[k].(internalSize := 0, userSize := 0)];
        slots := slots[k := slots[k].(mode := NotInUse)];
        cur := previous;
        unUsedSlots := unUsedSlots + 1;
        assert slots == Merged(old(slots), previous, k);
      } else {
        KeepLeftPending(cfg, View(), previous, k);
      }
    }

    method CoalesceNext(cur: nat, next: int)
      requires Pending(cfg, View(), cur, false, true) && NextFound(slots, cur, next)
      modifies this`slots, this`unUsedSlots
      ensures Pending(cfg, View(), cur, false, false) && |slots| == |old(slots)|
      ensures slots == if Joins(old(slots), next, cur) then Merged(old(slots), cur, next) else old(slots)
      ensures unUsedSlots >= old(unUsedSlots)
      ensures WithMode(slots, Allocated) == old(WithMode(slots, Allocated))
      ensures WithMode(slots, InternalUse) == old(WithMode(slots, InternalUse))
    {
      hide Pending, WithMode;
      if next >= 0 && slots[next].mode == slots[cur].mode {
        NeighboursMerge(cfg, View(), cur, false, cur, next);
        MergeRightPending(cfg, View(), cur, next);
        slots := slots[cur := slots[cur].(internalSize := slots[cur].internalSize + slots[next].internalSize)];
        slots := slots[next := slots[next].(internalAddress := 0, userAddress := 0)];
        slots := slots[next := slots[next].(internalSize := 0, userSize := 0)];
        slots := slots[next := slots[next].(mode := NotInUse)];
        unUsedSlots := unUsedSlots + 1;
        assert slots == Merged(old(slots), cur, next);
      } else {
        KeepRightPending(cfg, View(), cur, next);
      }
    }

    /** Give slot `k` back: no access, then one merge on each side. */
    method Reclaim(k: nat)
      requires Core() && Releasable(View(), k)
      modifies this`slots, this`unUsedSlots, this`access
      ensures Core() && unUsedSlots >= old(unUsedSlots)
      ensures slots == FreedTable(cfg, old(slots), k)
      ensures access == old(access) - Bytes(old(slots[k]).internalAddress, old(slots[k]).internalSize)
      ensures WithMode(slots, Allocated) == old(WithMode(slots, Allocated)) - {old(slots[k])}
      ensures WithMode(slots, InternalUse) == old(WithMode(slots, InternalUse)) - {old(slots[k])}
    {
      hide Good, Pending, WithMode, EndingAt, StartingAt;
      ReleaseModes(cfg, View(), k);
      Release(k);
      var previous := SlotForInternalAddressPreviousTo(slots, slots[k].internalAddress);
      var next := SlotForInternalAddress(slots, slots[k].End());
      var cur := CoalescePrevious(k, previous);
      CoalesceNext(cur, next);
      FinishFree(cfg, View(), cur);
      slots := slots[cur :=
        slots[cur].(userAddress := slots[cur].internalAddress, userSize := slots[cur].internalSize)];
    }

    method FreeLocked(address: nat) returns (r: Outcome)
      requires Core() && (internalUse ==> address != listAddress)
      modifies this`slots, this`unUsedSlots, this`access
      ensures r == Done(0) || r.Abort?
      ensures r.Abort? <==> address != 0 && !Freeable(old(slots), address, internalUse)
      ensures r.Abort? ==> r == Abort(if Holder(old(slots), address) < 0 then NOT_OURS else NOT_IN_USE)
      ensures address == 0 ==> View() == old(View())
      ensures r.Done? ==> Core() && unUsedSlots >= old(unUsedSlots)
      ensures r.Done? && address != 0 ==>
                var k := Holder(old(slots), address);
                && k >= 0
                && WithMode(slots, Allocated) == old(WithMode(slots, Allocated)) - {old(slots)[k]}
                && WithMode(slots, InternalUse) == old(WithMode(slots, InternalUse)) - {old(slots)[k]}
                && slots == FreedTable(cfg, old(slots), k)
                && forall x :: old(slots)[k].Covers(x) ==> x !in access
      ensures r.Done? && address != 0 && !noListProtection ==> Sealed()
    {
      hide Good, WithMode, Releasable, Holder, FreedTable;
      if address == 0 { return Done(0); }
      if !noListProtection { AllowList(); }
      var k := SlotForUserAddress(slots, address);
      if k < 0 { return Abort(NOT_OURS); }
      if !slots[k].mode.Allocated? && !(internalUse && slots[k].mode.InternalUse?) {
        return Abort(NOT_IN_USE);
      }
      NotTheTable(cfg, View(), k, internalUse);
      Reclaim(k);
      if !noListProtection { DenyList(); }
      r := Done(0);
    }

    /** Find the best free slot, or make one from a fresh chunk, and an empty slot for the surplus. */
    method FindRoom(needed: nat) returns (r: Outcome, full: nat, empty: nat)
      requires Core() && unUsedSlots >= 2 && needed > 0
      modifies this`chunks, this`access, this`slots, this`unUsedSlots
      ensures r.Done? || r.OutOfMemory?
      ensures r.Done? ==>
              Core() && |slots| == |old(slots)| && old(chunks) <= chunks && unUsedSlots >= old(unUsedSlots) - 1
      ensures r.OutOfMemory? ==> !HasFit(old(slots), needed) && chunks == old(chunks)
      ensures r.Done? ==> full < |slots| && empty < |slots| && full != empty
      ensures r.Done? ==> Fits(slots[full], needed) && !slots[empty].InUse()
      ensures r.Done? ==> full == BestIndex(slots, needed) && empty == FirstEmpty(slots)
      ensures r.Done? ==> var made := Added(old(chunks), chunks);
                          made == Made(cfg, old(slots), needed, Bases(made)) && slots == Stocked(old(slots), made)
      ensures r.Done? && chunks == old(chunks) ==> View() == old(View())
      ensures r.Done? ==> WithMode(slots, Allocated) == old(WithMode(slots, Allocated))
      ensures r.Done? ==> WithMode(slots, InternalUse) == old(WithMode(slots, InternalUse))
    {
      hide Good, WithMode, CountUnused, BestIndex, FirstEmpty, HasFit;
      full, empty := 0, 0;
      var f, e0, e1 := BestFit(slots, needed);
      FitIsBest(slots, needed);
      CountKept(cfg, View());
      if e0 < 0 {
        r := InternalError("No empty slot 0.");
        return;
      }
      if f < 0 {
        if e1 < 0 {
          r := InternalError("No empty slot 1.");
          return;
        }
        var ok := CreateMemory(e0, needed);
        if !ok { return OutOfMemory, 0, 0; }
        OnlyFit(old(slots), slots, e0, e1, needed);
        f, e0 := e0, e1;
      }
      return Done(0), f, e0;
    }

    /** Find room, place the buffer there and give out its address. */
    method Fill(alignment: nat, size: nat) returns (r: Outcome, ghost b: Slot)
      requires Core() && unUsedSlots >= 2
      requires internalUse ==> size > 0 && Aligned(cfg.page, size) && alignment == cfg.alignment
      modifies this`chunks, this`access, this`slots, this`unUsedSlots, this`used, this`given
      ensures r.Done? || r.OutOfMemory?
      ensures r.OutOfMemory? ==>
                chunks == old(chunks) && SpotFor(cfg, old(slots), alignment, size, internalUse, []) == NoRoom
      ensures r.Done? ==> var made := Added(old(chunks), chunks);
                          SpotFor(cfg, old(slots), alignment, size, internalUse, Bases(made)) == Spot(slots, b, made)
      ensures r.Done? ==>
              Core() && old(chunks) <= chunks && unUsedSlots >= old(unUsedSlots) - 2 && |slots| == |old(slots)|
      ensures r.Done? ==> old(used) <= used && Bytes(b.internalAddress, b.internalSize) <= used
      ensures r.Done? ==> GivesAnew(cfg, old(given), given, b)
      ensures r.Done? ==>
              b.userAddress == r.address && b == NewSlot(cfg, b.internalAddress, alignment, size, internalUse)
      ensures r.Done? ==> b !in old(WithMode(slots, Allocated)) && b !in old(WithMode(slots, InternalUse))
      ensures r.Done? ==>
              WithMode(slots, Allocated) == old(WithMode(slots, Allocated)) + (if internalUse then {} else {b})
      ensures r.Done? ==>
              WithMode(slots, InternalUse) == old(WithMode(slots, InternalUse)) + (if internalUse then {b} else {})
      ensures r.Done? && chunks == old(chunks) ==> unUsedSlots >= old(unUsedSlots) - 1
    {
      hide Good, WithMode, Placeable, InternalSize, UserSize, CountUnused, Aligned, BestIndex, FirstEmpty, HasFit;
      b := EMPTY_SLOT;
      var internalSize := InternalSize(cfg, alignment, size);
      FitIsBest(slots, internalSize);
      var full, empty;
      r, full, empty := FindRoom(internalSize);
      if !r.Done? { return; }
      CanUse(cfg, slots, full, empty, alignment, size, internalUse);
      b := Place(full, empty, alignment, size);
      r := Done(slots[full].userAddress);
    }

    /**
     Allocate. Inside a table growth (`internalUse`) the buffer becomes an internal slot and no further growth
     happens; otherwise the table is grown first when fewer than seven slots are left.
     */
    method MemalignLocked(alignment: nat, size: nat) returns (r: Outcome, ghost b: Slot)
      requires Core()
      requires internalUse ==> unUsedSlots >= 2 && noListProtection && alignment == cfg.alignment
      requires internalUse ==> size > 0 && Aligned(cfg.page, size)
      requires !internalUse ==> Valid()
      modifies this
      decreases if internalUse then 0 else 1
      ensures !r.InternalError?
      ensures r.Abort? <==> size == 0 && !cfg.allowZero
      ensures r.Abort? ==> r == Abort(ZERO_SIZE) && View() == old(View())
      ensures r.Done? ==> Core() && internalUse == old(internalUse)
      ensures old(chunks) <= chunks
      ensures r.Done? ==> old(used) <= used && Bytes(b.internalAddress, b.internalSize) <= used
      ensures r.Done? ==> GivesAnew(cfg, old(given), given, b)
      ensures !old(internalUse) ==>
                var made := Added(old(chunks), chunks);
                Follows(r, Layout(), made, Allot(cfg, old(Layout()), alignment, size, Bases(made)))
      ensures old(internalUse) && r.OutOfMemory? ==>
                chunks == old(chunks) && SpotFor(cfg, old(slots), alignment, size, true, []) == NoRoom
      ensures old(internalUse) && r.Done? ==>
                var made := Added(old(chunks), chunks);
                SpotFor(cfg, old(slots), alignment, size, true, Bases(made)) == Spot(slots, b, made)
      ensures r.Done? && chunks == old(chunks) && !TooFew(old(slots)) ==>
                Listing() == old(Listing()) && unUsedSlots >= old(unUsedSlots) - 1
      ensures r.Done? ==>
              b.userAddress == r.address && b == NewSlot(cfg, b.internalAddress, alignment, size, internalUse)
      ensures r.Done? && internalUse ==>
                && noListProtection && Listing() == old(Listing())
                && unUsedSlots >= old(unUsedSlots) - 2
                && WithMode(slots, Allocated) == old(WithMode(slots, Allocated))
                && b !in old(WithMode(slots, InternalUse))
                && WithMode(slots, InternalUse) == old(WithMode(slots, InternalUse)) + {b}
      ensures r.Done? && !internalUse ==>
                && Valid() && Sealed()
                && b !in old(Buffers()) && Buffers() == old(Buffers()) + {b} && NewTo(old(Buffers()), b)
    {
      hide Good, WithMode, NewTo, InternalSize, UserSize, Aligned, Bytes, NewSlot, SpotFor, Ready,
           CountUnused, Added, Allot;
      AddedTwice(chunks, chunks, chunks);
      ghost var first: seq<Chunk> := [];
      b := EMPTY_SLOT;
      if !internalUse { EndsEarly(cfg, Layout(), alignment, size); }
      if size == 0 && !cfg.allowZero { return Abort(ZERO_SIZE), b; }
      if !noListProtection { AllowList(); }
      if !internalUse {
        var ready := Prepare();
        first := Added(old(chunks), chunks);
        if !ready.Done? { return ready, b; }
      }
      ghost var between, had := Layout(), chunks;
      r, b := Fill(alignment, size);
      ghost var second := Added(had, chunks);
      AddedTwice(old(chunks), had, chunks);
      if !internalUse { InTwoSteps(cfg, old(Layout()), between, alignment, size, first, second); }
      if !r.Done? { return; }
      if !internalUse {
        NewAddress(cfg, View(), old(Buffers()), b);
        DenyList();
      }
    }

    /** For a client's request the table is made larger when it is short of empty slots. */
    method Prepare() returns (r: Outcome)
      requires Valid()
      modifies this
      decreases 1, 1
      ensures r == Done(0) || r.OutOfMemory?
      ensures old(chunks) <= chunks
      ensures r.Done? ==> Valid() && unUsedSlots >= 7 && old(used) <= used && Buffers() == old(Buffers())
      ensures r.Done? ==> old(given) <= given
      ensures CountUnused(old(slots)) >= 7 ==> r.Done? && View() == old(View())
      ensures var made := Added(old(chunks), chunks);
              Follows(r, Layout(), made, Ready(cfg, old(Layout()), Bases(made)))
    {
      hide Good, WithMode, Grow, CountUnused;
      CountKept(cfg, View());
      r := Done(0);
      if unUsedSlots < 7 { r := AllocateMoreSlots(); }
    }

    /** Copy the table to its new buffer, count the new slots and free the old table. */
    method MoveTable(newSize: nat, ghost b: Slot, address: nat) returns (r: Outcome)
      requires Core() && internalUse && newSize == listSize + cfg.page
      requires WithMode(slots, InternalUse) == {tableSlot, b} && b != tableSlot
      requires b.userAddress == address && b.userSize == newSize
      modifies this
      ensures r == Done(0) && Core() && chunks == old(chunks) && used == old(used) && given == old(given)
      ensures |slots| == |old(slots)| + cfg.page / 40
      ensures unUsedSlots >= old(unUsedSlots) + 7
      ensures Layout() == MovedPlan(cfg, old(Layout()), address)
      ensures WithMode(slots, Allocated) == old(WithMode(slots, Allocated))
      ensures WithMode(slots, InternalUse) == {tableSlot}
    {
      hide Good, WithMode, Freeable, Holder, FreedTable;
      var oldList := listAddress;
      GrowSize(cfg, View());
      GrowGood(cfg, View(), b, newSize);
      slots := slots + EmptySlots(slotsPerPage);
      listAddress := address;
      listSize := newSize;
      slotCount := slotCount + slotsPerPage;
      unUsedSlots := unUsedSlots + slotsPerPage;
      ghost var former := tableSlot;
      tableSlot := b;
      OldTableFreeable(cfg, View(), former);
      r := FreeLocked(oldList);
    }

    /** Move the slot table to a buffer one page larger and free the old one. */
    method AllocateMoreSlots() returns (r: Outcome)
      requires Valid()
      modifies this
      decreases 1, 0
      ensures r == Done(0) || r.OutOfMemory?
      ensures old(chunks) <= chunks
      ensures r.Done? ==> Valid() && unUsedSlots >= 10 && old(used) <= used && old(given) <= given
      ensures r.Done? ==> Buffers() == old(Buffers())
      ensures var made := Added(old(chunks), chunks);
              Follows(r, Layout(), made, Grow(cfg, old(Layout()), Bases(made)))
    {
      hide Good, WithMode, NewSlot, Aligned, Freeable, Without, MovedPlan, SpotFor;
      var newSize := listSize + cfg.page;
      GrowSize(cfg, View());
      AllowList();
      noListProtection := true;
      internalUse := true;
      ghost var b: Slot;
      r, b := MemalignLocked(cfg.alignment, newSize);
      if !r.Done? { return; }
      InternalUserSize(cfg, b.internalAddress, newSize);
      r := MoveTable(newSize, b, r.address);
      noListProtection := false;
      internalUse := false;
    }

    method Memalign(alignment: nat, size: nat) returns (r: Outcome, ghost b: Slot)
      requires Valid()
      modifies this
      ensures !r.InternalError?
      ensures r.Abort? <==> size == 0 && !cfg.allowZero
      ensures r.Abort? ==> r == Abort(ZERO_SIZE)
      ensures old(chunks) <= chunks
      ensures r.Done? ==> Valid() && Sealed()
      ensures r.Done? ==> b.userAddress == r.address && b == NewSlot(cfg, b.internalAddress, alignment, size, false)
      ensures r.Done? ==> b !in old(Buffers()) && Buffers() == old(Buffers()) + {b} && NewTo(old(Buffers()), b)
      ensures r.Done? ==> old(used) <= used && Bytes(b.internalAddress, b.internalSize) <= used
      ensures r.Done? ==> GivesAnew(cfg, old(given), given, b)
      ensures var made := Added(old(chunks), chunks);
              Follows(r, Layout(), made, Allot(cfg, old(Layout()), alignment, size, Bases(made)))
      ensures r.OutOfMemory? || chunks != old(chunks) ==> NeedsMemory(cfg, old(Layout()), alignment, size)
      ensures r.Done? && chunks == old(chunks) && !TooFew(old(slots)) ==>
                Listing() == old(Listing()) && unUsedSlots >= old(unUsedSlots) - 1
    {
      hide Good, WithMode, NewSlot, NewTo, Allot, NeedsMemory, CountUnused;
      r, b := MemalignLocked(alignment, size);
      if !NeedsMemory(cfg, old(Layout()), alignment, size) {
        RefusedOnlyInNeed(cfg, old(Layout()), alignment, size, Bases(Added(old(chunks), chunks)));
      }
    }

    method Malloc(size: nat) returns (r: Outcome, ghost b: Slot)
      requires Valid()
      modifies this
      ensures !r.InternalError?
      ensures r.Abort? <==> size == 0 && !cfg.allowZero
      ensures r.Abort? ==> r == Abort(ZERO_SIZE)
      ensures old(chunks) <= chunks
      ensures r.Done? ==> Valid() && Sealed()
      ensures r.Done? ==> b.userAddress == r.address && b == NewSlot(cfg, b.internalAddress, cfg.alignment, size, false)
      ensures r.Done? ==> b !in old(Buffers()) && Buffers() == old(Buffers()) + {b} && NewTo(old(Buffers()), b)
      ensures r.Done? ==> old(used) <= used && Bytes(b.internalAddress, b.internalSize) <= used
      ensures r.Done? ==> GivesAnew(cfg, old(given), given, b)
      ensures var made := Added(old(chunks), chunks);
              Follows(r, Layout(), made, Allot(cfg, old(Layout()), cfg.alignment, size, Bases(made)))
      ensures r.OutOfMemory? || chunks != old(chunks) ==> NeedsMemory(cfg, old(Layout()), cfg.alignment, size)
      ensures r.Done? && chunks == old(chunks) && !TooFew(old(slots)) ==>
                Listing() == old(Listing()) && unUsedSlots >= old(unUsedSlots) - 1
    {
      hide Good, WithMode, NewSlot, NewTo, Allot, NeedsMemory, CountUnused;
      r, b := Memalign(cfg.alignment, size);
    }

    method Free(address: nat) returns (r: Outcome)
      requires Valid()
      modifies this
      ensures r.Done? || r.Abort?
      ensures r.Abort? <==> address != 0 && !Freeable(old(slots), address, false)
      ensures Plain(cfg, old(Buffers()), address) ==> (r.Abort? <==> address != 0 && !Live(old(slots), address))
      ensures address == 0 ==> View() == old(View())
      ensures r.Done? ==> Valid() && chunks == old(chunks) && used == old(used) && given == old(given)
      ensures r.Done? ==> Listing() == old(Listing()) && unUsedSlots >= old(unUsedSlots)
      ensures r.Done? && address != 0 ==> Sealed() && Buffers() == Without(old(Buffers()), address)
      ensures r.Done? && address != 0 ==> Closed(old(slots), address, access)
      ensures chunks == old(chunks) && Follows(r, Layout(), [], GiveBack(cfg, old(Layout()), address))
    {
      hide Good, WithMode, Without, Holder, Plain, Live, FreedTable;
      if address == 0 { return Done(0); }
      FreeModes(cfg, View(), address);
      if Plain(cfg, Buffers(), address) { PlainFreeable(cfg, View(), address); }
      r := FreeLocked(address);
    }

    /**
     A live buffer is replaced by a new one. A stale `address` ends in an abort, unless the new buffer happens
     to land on it: then the new buffer is the one that gets freed and the result is not live. `mid` is the table
     with both buffers in it, where the old one is looked up.
     */
    method Realloc(address: nat, size: nat) returns (r: Outcome, ghost b: Slot, ghost mid: seq<Slot>)
      requires Valid()
      modifies this
      ensures !r.InternalError?
      ensures r.Abort? <==> (size == 0 && !cfg.allowZero) ||
                            (!r.OutOfMemory? && address != 0 && !Freeable(mid, address, false))
      ensures size == 0 && !cfg.allowZero ==> r == Abort(ZERO_SIZE)
      ensures Plain(cfg, old(Buffers()) + {b}, address) ==>
                (r.Abort? <==> (size == 0 && !cfg.allowZero) ||
                               (!r.OutOfMemory? && address != 0 && !Freeable(old(slots), address, false)
                                && b.userAddress != address))
      ensures var made := Added(old(chunks), chunks);
              Follows(r, Layout(), made, Resize(cfg, old(Layout()), address, size, Bases(made)))
      ensures old(chunks) <= chunks
      ensures r.Done? ==> Valid() && Sealed()
      ensures r.Done? ==> b.userAddress == r.address
      ensures !r.OutOfMemory? && !(size == 0 && !cfg.allowZero) ==>
                && b == NewSlot(cfg, b.internalAddress, cfg.alignment, size, false)
                && b !in old(Buffers()) && NewTo(old(Buffers()), b)
                && WithMode(mid, Allocated) == old(Buffers()) + {b}
                && var t := Allot(cfg, old(Layout()), cfg.alignment, size, Bases(Added(old(chunks), chunks)));
                   t.answer == Done(b.userAddress) && t.plan.slots == mid
      ensures r.Done? ==> Buffers() == (if address == 0 then old(Buffers()) + {b}
                                        else Without(old(Buffers()) + {b}, address))
      ensures r.Done? && address != 0 ==> (b in Buffers() <==> b.userAddress != address)
      ensures r.Done? && address != 0 ==> Live(old(slots), address) || b.userAddress == address
      ensures r.Done? && address != 0 && Plain(cfg, old(Buffers()) + {b}, address) ==>
                (b in Buffers() <==> Freeable(old(slots), address, false))
      ensures r.Done? ==> old(used) <= used && Bytes(b.internalAddress, b.internalSize) <= used
      ensures r.Done? ==> GivesAnew(cfg, old(given), given, b)
      ensures r.OutOfMemory? || chunks != old(chunks) ==> NeedsMemory(cfg, old(Layout()), cfg.alignment, size)
      ensures r.Done? && chunks == old(chunks) && !TooFew(old(slots)) ==>
                Listing() == old(Listing()) && unUsedSlots >= old(unUsedSlots) - 1
    {
      hide Good, WithMode, NewSlot, NewTo, Freeable, Without, Plain, Holder, Live, NeedsMemory, Allot, GiveBack,
           CountUnused;
      r, b := MemalignLocked(cfg.alignment, size);
      mid := slots;
      if !NeedsMemory(cfg, old(Layout()), cfg.alignment, size) {
        RefusedOnlyInNeed(cfg, old(Layout()), cfg.alignment, size, Bases(Added(old(chunks), chunks)));
      }
      if !r.Done? { return; }
      if address != 0 {
        FilledBuffer(cfg, b.internalAddress, cfg.alignment, size);
        ReallocTarget(cfg, old(View()), View(), b, address);
        var freed := GiveUp(address);
        if !freed.Done? { return freed, b, mid; }
      }
    }

    /** Second half of realloc: look up the old buffer and free it, with the table open all the time. */
    method GiveUp(address: nat) returns (r: Outcome)
      requires Valid() && address != 0
      modifies this
      ensures r.Done? || r.Abort?
      ensures r.Abort? <==> !Freeable(old(slots), address, false)
      ensures r.Abort? ==> r == Abort(if Holder(old(slots), address) < 0 then CANNOT_RESIZE else NOT_IN_USE)
      ensures r.Abort? && Holder(old(slots), address) >= 0 ==> r == GiveBack(cfg, old(Layout()), address).answer
      ensures chunks == old(chunks)
      ensures r.Done? ==> Valid() && Sealed() && used == old(used) && given == old(given)
      ensures r.Done? ==> Holder(old(slots), address) >= 0
      ensures r.Done? ==> Follows(r, Layout(), [], GiveBack(cfg, old(Layout()), address))
      ensures r.Done? ==> Listing() == old(Listing()) && unUsedSlots >= old(unUsedSlots)
      ensures r.Done? ==> Buffers() == Without(old(Buffers()), address)
    {
      hide Good, WithMode, Without, Holder, FreedTable;
      FreeModes(cfg, View(), address);
      AllowList();
      noListProtection := true;
      var k := SlotForUserAddress(slots, address);
      if k < 0 { return Abort(CANNOT_RESIZE); }
      r := FreeLocked(address);
      if !r.Done? { return; }
      noListProtection := false;
      DenyList();
    }
  }

  lemma EmptySlotIsZero(c: Config, a: Arena, e: nat)
    requires Good(c, a) && e < |a.slots| && !a.slots[e].InUse()
    ensures a.slots[e] == EMPTY_SLOT && a.unUsed >= 1
  {
    assert SlotOk(c, a.slots[e]);
    CountUpdate(a.slots, e, a.slots[e].(mode := Mode.Free));
  }

  lemma TableAligned(c: Config, a: Arena)
    requires Good(c, a)
    ensures c.page > 0 && Aligned(c.page, a.listAddress) && Aligned(c.page, a.listSize)
  {
    var k :| 0 <= k < |a.slots| && a.slots[k] == a.table;
    assert SlotOk(c, a.slots[k]);
  }

  /** Opening or closing the slot table keeps everything else. */
  lemma ListAccess(c: Config, a: Arena, access: iset<int>)
    requires Good(c, a)
    requires forall x :: !(a.listAddress <= x < a.listAddress + a.listSize) ==> (x in access <==> x in a.access)
    ensures Good(c, a.(access := access))
  {
    var k :| 0 <= k < |a.slots| && a.slots[k] == a.table;
    assert SlotOk(c, a.slots[k]);
    TableAccessFenced(c, a.slots, k, a.access, a.used, access);
  }

  lemma ChunkSlot(c: Config, ch: Chunk, n: nat)
    requires c.page > 0 && ch.base > 0 && Aligned(c.page, ch.base) && ch.size == ChunkSize(c, n)
    ensures SlotOk(c, Slot(0, ch.base, 0, ch.size, Free)) && ch.size > 0
  {
    hide Aligned, RoundUp;
    RoundUpAligned(c.page, if MEMORY_CREATION_SIZE < n then n else MEMORY_CREATION_SIZE);
  }

  /** A fresh chunk in an empty slot keeps every invariant. */
  lemma AddChunkGood(c: Config, a: Arena, e: nat, ch: Chunk, n: nat)
    requires Good(c, a) && e < |a.slots| && !a.slots[e].InUse() && a.unUsed >= 1
    requires ch.base > 0 && Aligned(c.page, ch.base) && ch.size == ChunkSize(c, n)
    requires forall x :: ch.Covers(x) ==> !Mapped(a.chunks, x)
    ensures var t := a.slots[e := Slot(0, ch.base, 0, ch.size, Free)];
            && Good(c, a.(slots := t, chunks := a.chunks + [ch], access := a.access + Bytes(ch.base, ch.size),
                          unUsed := a.unUsed - 1))
            && WithMode(t, Allocated) == WithMode(a.slots, Allocated)
            && WithMode(t, InternalUse) == WithMode(a.slots, InternalUse)
  {
    hide Tidy, Partition, Canonical, Fenced, Separate, SlotOk, CountUnused, Aligned, Mapped, ChunkSize;
    var v := Slot(0, ch.base, 0, ch.size, Free);
    ChunkSlot(c, ch, n);
    TidyTable(c, a);
    TidyUpdate(c, a.slots, e, v);
    AddChunkPartition(a.slots, a.chunks, e, ch);
    AddChunkCanonical(a.slots, a.chunks, e, ch);
    AddChunkFenced(c, a.slots, a.chunks, e, ch, a.access, a.used);
    CountUpdate(a.slots, e, v);
    WithModeUpdate(a.slots, e, v, Allocated);
    WithModeUpdate(a.slots, e, v, InternalUse);
    forall x | x in a.used
      ensures Mapped(a.chunks + [ch], x)
    {
      MappedExtend(a.chunks, ch, x);
    }
  }

  ghost predicate Placeable(c: Config, s: seq<Slot>, f: nat, e: nat, alignment: nat, size: nat, internal: bool)
    requires c.page > 0
  {
    && f < |s| && e < |s| && f != e
    && Fits(s[f], InternalSize(c, alignment, size))
    && !s[e].InUse()
    && (internal ==> size > 0 && Aligned(c.page, size) && alignment == c.alignment)
  }

  lemma PlaceReady(c: Config, a: Arena, f: nat, e: nat, alignment: nat, size: nat, internal: bool)
    requires Good(c, a) && Placeable(c, a.slots, f, e, alignment, size, internal)
    ensures a.slots[e] == EMPTY_SLOT && a.unUsed >= 1
    ensures var b := NewSlot(c, a.slots[f].internalAddress, alignment, size, internal);
            && SlotOk(c, b) && CanPlace(a.slots, f, e, b)
            && Aligned(c.page, b.internalAddress) && Aligned(c.page, c.page)
            && Aligned(c.page, b.internalAddress + c.page)
            && Aligned(c.page, b.internalSize - c.page)
            && Aligned(c.page, b.internalAddress + (b.internalSize - c.page))
  {
    hide Good, Aligned, RoundUp, InternalSize, UserSize;
    EmptySlotIsZero(c, a, e);
    FreeSlotAligned(c, a, f);
    var start := a.slots[f].internalAddress;
    NewSlotOk(c, start, alignment, size, internal);
    AlignedPage(c.page);
    AlignedSum(c.page, start, c.page);
    var whole := InternalSize(c, alignment, size);
    WholePages(c, alignment, size);
    AlignedDifference(c.page, whole, c.page);
    AlignedSum(c.page, start, whole - c.page);
  }

  lemma FreeSlotAligned(c: Config, a: Arena, f: nat)
    requires Good(c, a) && f < |a.slots| && a.slots[f].mode.Free?
    ensures c.Valid() && a.slots[f].internalAddress > 0 && Aligned(c.page, a.slots[f].internalAddress)
  {
    assert SlotOk(c, a.slots[f]);
  }

  /** Access rights once the pages of a buffer at [start, start + whole) are set up. */
  ghost function FencedAccess(c: Config, access: iset<int>, start: nat, whole: nat): (r: iset<int>)
    requires whole >= c.page
    ensures forall x :: !(start <= x < start + whole) ==> (x in r <==> x in access)
  {
    if c.below then access - Bytes(start, c.page) + Bytes(start + c.page, whole - c.page)
    else access + Bytes(start, whole - c.page) - Bytes(start + (whole - c.page), c.page)
  }

  lemma PlaceGood(c: Config, a: Arena, f: nat, e: nat, alignment: nat, size: nat, internal: bool)
    requires Good(c, a) && Placeable(c, a.slots, f, e, alignment, size, internal)
    ensures var b := NewSlot(c, a.slots[f].internalAddress, alignment, size, internal);
            CanPlace(a.slots, f, e, b) &&
            var t := Placed(a.slots, f, e, b);
            var left := a.unUsed - (if a.slots[f].internalSize > InternalSize(c, alignment, size) then 1 else 0);
            && left >= 0
            && Good(c, a.(slots := t, access := FencedAccess(c, a.access, b.internalAddress, b.internalSize),
                          unUsed := left, used := a.used + Bytes(b.internalAddress, b.internalSize),
                          given := a.given + Bytes(b.internalAddress, b.internalSize)))
            && GivesAnew(c, a.given, a.given + Bytes(b.internalAddress, b.internalSize), b)
            && WithMode(t, Allocated) == WithMode(a.slots, Allocated) + (if internal then {} else {b})
            && WithMode(t, InternalUse) == WithMode(a.slots, InternalUse) + (if internal then {b} else {})
            && b !in WithMode(a.slots, Allocated) && b !in WithMode(a.slots, InternalUse)
  {
    hide Tidy, Partition, Canonical, Fenced, Separate, SlotOk, WithMode, CountUnused, Aligned, InternalSize, UserSize;
    hide CanPlace, Placed, Placeable, NewSlot;
    TidyTable(c, a);
    PlaceReady(c, a, f, e, alignment, size, internal);
    PlaceShape(c, a.slots, f, e, alignment, size, internal, a.access);
    var b := NewSlot(c, a.slots[f].internalAddress, alignment, size, internal);
    var t := Placed(a.slots, f, e, b);
    PlaceTidy(c, a.slots, f, e, b);
    PlaceNamed(c, a.slots, f, e, b);
    PlaceSpared(c, a.slots, f, e, b, a.given);
    PlacePartition(a.slots, a.chunks, f, e, b);
    PlaceCanonical(a.slots, a.chunks, f, e, b);
    PlaceFenced(c, a.slots, f, e, b, a.access, a.used, FencedAccess(c, a.access, b.internalAddress, b.internalSize));
    PlaceModes(a.slots, f, e, b, Allocated);
    PlaceModes(a.slots, f, e, b, InternalUse);
    PlaceCount(a.slots, f, e, b);
    PlaceMapped(a.slots, a.chunks, f, e, b);
  }

  /** What the record of a new buffer looks like where it is placed. */
  lemma PlaceShape(c: Config, s: seq<Slot>, f: nat, e: nat, alignment: nat, size: nat, internal: bool,
      access: iset<int>)
    requires c.page > 0 && Placeable(c, s, f, e, alignment, size, internal)
    ensures var b := NewSlot(c, s[f].internalAddress, alignment, size, internal);
            && f < |s| && e < |s| && f != e && s[f].mode.Free? && !s[e].InUse()
            && b.internalAddress == s[f].internalAddress
            && c.page <= b.internalSize == InternalSize(c, alignment, size) <= s[f].internalSize
            && (b.mode == if internal then InternalUse else Allocated) && Named(c, f, b)
            && var after := FencedAccess(c, access, b.internalAddress, b.internalSize);
               && (forall x :: !b.Covers(x) ==> (x in after <==> x in access))
               && (forall x :: LiveStart(c, b) <= x < LiveEnd(c, b) ==> x in after)
               && (forall x :: DeadStart(c, b) <= x < DeadStart(c, b) + c.page ==> x !in after)
  {
    hide InternalSize, UserSize, Aligned;
  }

  lemma PlaceMapped(s: seq<Slot>, chunks: seq<Chunk>, f: nat, e: nat, b: Slot)
    requires Partition(s, chunks) && CanPlace(s, f, e, b)
    ensures forall x :: b.Covers(x) ==> Mapped(chunks, x)
  {
    forall x | b.Covers(x)
      ensures Mapped(chunks, x)
    {
      assert s[f].Covers(x);
      assert Covered(s, x);
    }
  }

  lemma PlaceCount(s: seq<Slot>, f: nat, e: nat, v: Slot)
    requires CanPlace(s, f, e, v)
    ensures CountUnused(Placed(s, f, e, v)) == CountUnused(s) - (if s[f].internalSize > v.internalSize then 1 else 0)
  {
    CountUpdate(s, f, v);
    var t := s[f := v];
    CountUpdate(t, e, Slot(0, v.End(), 0, s[f].internalSize - v.internalSize, Free));
  }

  // ---- Free ----

  /** Slot `i` was found next to slot `k` and can be merged with it. */
  predicate Joins(s: seq<Slot>, i: int, k: nat)
    requires -1 <= i < |s| && k < |s|
  {
    i >= 0 && s[i].mode == s[k].mode
  }

  /** The table after slot `k` is given back: both neighbours are looked up, and each is merged if it is as idle. */
  function FreedTable(c: Config, s: seq<Slot>, k: nat): (t: seq<Slot>)
    requires k < |s|
    ensures |t| == |s|
  {
    var r := s[k := s[k].(mode := if c.protectFree then Protected else Free)];
    var p, q := EndingAt(r, r[k].internalAddress), StartingAt(r, r[k].End());
    var cur := if Joins(r, p, k) then p else k;
    var left := if Joins(r, p, k) then Merged(r, p, k) else r;
    var both := if Joins(left, q, cur) then Merged(left, cur, q) else left;
    both[cur := both[cur].(userAddress := both[cur].internalAddress, userSize := both[cur].internalSize)]
  }

  /** No idle slot touches slot `k`. */
  predicate Alone(s: seq<Slot>, k: int) {
    && 0 <= k < |s|
    && forall i :: 0 <= i < |s| && s[i].Idle() ==>
         s[i].End() != s[k].internalAddress && s[i].internalAddress != s[k].End()
  }

  /** The record of a buffer that was given back and not merged. */
  function Vacated(c: Config, b: Slot): Slot {
    Slot(b.internalAddress, b.internalAddress, b.internalSize, b.internalSize,
         if c.protectFree then Protected else Free)
  }

  /** The state while the edges of slot `k` still wait to be merged with its neighbours. */
  ghost predicate Pending(c: Config, a: Arena, k: nat, left: bool, right: bool) {
    && c.Valid()
    && Tidy(c, a.slots)
    && Partition(a.slots, a.chunks)
    && CanonicalBut(a.slots, a.chunks, k, left, right)
    && Fenced(c, a.slots, a.access, a.used)
    && (forall x :: x in a.used ==> Mapped(a.chunks, x))
    && NamedBut(c, a.slots, k)
    && a.given <= a.used && Spared(c, a.slots, a.given)
    && k < |a.slots| && a.slots[k].Idle()
    && a.unUsed == CountUnused(a.slots)
    && a.perPage == c.page / SLOT_BYTES
    && |a.slots| * SLOT_BYTES <= a.listSize
    && a.table in WithMode(a.slots, InternalUse)
    && a.table.userAddress == a.listAddress
    && a.table.userSize == a.listSize
  }

  ghost predicate Releasable(a: Arena, k: nat) {
    && k < |a.slots|
    && (a.slots[k].mode.Allocated? || a.slots[k].mode.InternalUse?)
    && a.slots[k] != a.table
  }

  ghost function Released(c: Config, a: Arena, k: nat): Arena
    requires k < |a.slots|
  {
    var b := a.slots[k];
    a.(slots := a.slots[k := b.(mode := if c.protectFree then Protected else Free)],
       access := a.access - Bytes(b.internalAddress, b.internalSize))
  }

  lemma ReleasePending(c: Config, a: Arena, k: nat)
    requires Good(c, a) && Releasable(a, k)
    ensures Pending(c, Released(c, a, k), k, true, true)
    ensures Aligned(c.page, a.slots[k].internalAddress) && Aligned(c.page, a.slots[k].internalSize)
  {
    var b := a.slots[k];
    var v := b.(mode := if c.protectFree then Protected else Free);
    assert SlotOk(c, b);
    TidyUpdate(c, a.slots, k, v);
    RelabelPartition(a.slots, a.chunks, k, v);
    ReleaseCanonical(a.slots, a.chunks, k, v);
    ReleaseFenced(c, a.slots, k, v, a.access, a.used);
    CountUpdate(a.slots, k, v);
    WithModeUpdate(a.slots, k, v, InternalUse);
  }

  /** What the search for the slot that ends where slot `k` starts has found. */
  ghost predicate PreviousFound(s: seq<Slot>, k: nat, p: int) {
    && k < |s| && -1 <= p < |s|
    && (p < 0 ==> forall i :: 0 <= i < |s| ==> s[i].End() != s[k].internalAddress)
    && (p >= 0 ==> s[p].End() == s[k].internalAddress)
  }

  /** What the search for the slot that starts where slot `k` ends has found. */
  ghost predicate NextFound(s: seq<Slot>, k: nat, q: int) {
    && k < |s| && -1 <= q < |s|
    && (q < 0 ==> forall i :: 0 <= i < |s| ==> s[i].internalAddress != s[k].End())
    && (q >= 0 ==> s[q].internalAddress == s[k].End())
  }

  lemma SameModeMerges(a: Slot, b: Slot)
    requires a.End() == b.internalAddress && a.mode == b.mode && (a.Idle() || b.Idle())
    ensures Mergeable(a, b)
  {
  }

  lemma NeighboursMerge(c: Config, a: Arena, k: nat, left: bool, p: nat, q: nat)
    requires Pending(c, a, k, left, true) && p < |a.slots| && q < |a.slots| && (p == k || q == k)
    requires a.slots[p].End() == a.slots[q].internalAddress && a.slots[p].mode == a.slots[q].mode
    ensures CanMerge(a.slots, p, q)
  {
    SameModeMerges(a.slots[p], a.slots[q]);
    assert a.slots[k].internalSize > 0 by { assert SlotOk(c, a.slots[k]); }
  }

  lemma MergeLeftPending(c: Config, a: Arena, p: nat, k: nat)
    requires Pending(c, a, k, true, true) && CanMerge(a.slots, p, k)
    ensures Pending(c, a.(slots := Merged(a.slots, p, k), unUsed := a.unUsed + 1), p, false, true)
    ensures WithMode(Merged(a.slots, p, k), Allocated) == WithMode(a.slots, Allocated)
    ensures WithMode(Merged(a.slots, p, k), InternalUse) == WithMode(a.slots, InternalUse)
  {
    MergeTidy(c, a.slots, p, k);
    MergeNamed(c, a.slots, p, k, k);
    MergeSpared(c, a.slots, p, k, a.given);
    MergePartition(a.slots, a.chunks, p, k);
    MergeLeftCanonical(a.slots, a.chunks, p, k);
    MergeFenced(c, a.slots, p, k, a.access, a.used);
    MergeCount(a.slots, p, k);
    MergeModes(a.slots, p, k, Allocated);
    MergeModes(a.slots, p, k, InternalUse);
  }

  lemma KeepLeftPending(c: Config, a: Arena, p: int, k: nat)
    requires Pending(c, a, k, true, true) && PreviousFound(a.slots, k, p)
    requires p >= 0 ==> a.slots[p].mode != a.slots[k].mode
    ensures Pending(c, a, k, false, true)
  {
    var s := a.slots;
    assert SlotOk(c, s[k]);
    forall i | 0 <= i < |s|
      ensures !Mergeable(s[i], s[k])
    {
      if p >= 0 && i != p {
        assert Apart(s[i], s[p]);
        assert SlotOk(c, s[i]) && SlotOk(c, s[p]);
      }
    }
    KeepLeftCanonical(s, a.chunks, k);
  }

  lemma MergeRightPending(c: Config, a: Arena, k: nat, q: nat)
    requires Pending(c, a, k, false, true) && CanMerge(a.slots, k, q)
    ensures Pending(c, a.(slots := Merged(a.slots, k, q), unUsed := a.unUsed + 1), k, false, false)
    ensures WithMode(Merged(a.slots, k, q), Allocated) == WithMode(a.slots, Allocated)
    ensures WithMode(Merged(a.slots, k, q), InternalUse) == WithMode(a.slots, InternalUse)
  {
    MergeTidy(c, a.slots, k, q);
    MergeNamed(c, a.slots, k, q, k);
    MergeSpared(c, a.slots, k, q, a.given);
    MergePartition(a.slots, a.chunks, k, q);
    MergeRightCanonical(a.slots, a.chunks, k, q);
    MergeFenced(c, a.slots, k, q, a.access, a.used);
    MergeCount(a.slots, k, q);
    MergeModes(a.slots, k, q, Allocated);
    MergeModes(a.slots, k, q, InternalUse);
  }

  lemma KeepRightPending(c: Config, a: Arena, k: nat, q: int)
    requires Pending(c, a, k, false, true) && NextFound(a.slots, k, q)
    requires q >= 0 ==> a.slots[q].mode != a.slots[k].mode
    ensures Pending(c, a, k, false, false)
  {
    var s := a.slots;
    assert SlotOk(c, s[k]);
    forall j | 0 <= j < |s|
      ensures !Mergeable(s[k], s[j])
    {
      if q >= 0 && j != q {
        assert Apart(s[j], s[q]);
        assert SlotOk(c, s[j]) && SlotOk(c, s[q]);
      }
    }
  }

  /** What the lookup of free finds is a live buffer, or a table while the table is being moved. */
  predicate Freeable(s: seq<Slot>, address: nat, internal: bool) {
    var k := Holder(s, address);
    k >= 0 && (s[k].mode.Allocated? || (internal && s[k].mode.InternalUse?))
  }

  /** No empty buffer fenced from below has the address. */
  ghost predicate Plain(c: Config, bs: set<Slot>, address: nat) {
    forall b :: b in bs && b.userAddress == address ==> !Hollow(c, b)
  }

  /** Some live buffer has the address. */
  ghost predicate Live(s: seq<Slot>, address: nat) {
    exists b :: b in WithMode(s, Allocated) && b.userAddress == address
  }

  /** Another slot with the buffer's address comes before the buffer in the table. */
  predicate Shadowed(c: Config, s: seq<Slot>, k: nat)
    requires k < |s|
  {
    Hollow(c, s[k]) && exists i :: 0 <= i < k && s[i].InUse() && s[i].userAddress == s[k].userAddress
  }

  /** free takes a live buffer back if and only if that buffer is not an empty one that another slot hides. */
  lemma LiveIsFreeable(c: Config, a: Arena, k: nat)
    requires Good(c, a) && k < |a.slots| && a.slots[k].mode.Allocated?
    ensures Freeable(a.slots, a.slots[k].userAddress, false) <==> !Shadowed(c, a.slots, k)
  {
    hide Good, Tidy, Separate, Holder, AllNamed;
    TidyTable(c, a);
    var s, address := a.slots, a.slots[k].userAddress;
    PositiveAddress(c, s, k);
    var h := Holder(s, address);
    if h < k { HidesHollow(c, s, h, k); }
  }

  /** The slot that hides a buffer: it is not a buffer, and it starts where the hidden one ends. */
  lemma HidesHollow(c: Config, s: seq<Slot>, h: nat, k: nat)
    requires c.page > 0 && Tidy(c, s) && Separate(s) && AllNamed(c, s) && h < |s| && k < |s| && h != k
    requires s[k].mode.Allocated? && s[h].userAddress == s[k].userAddress
    ensures Hollow(c, s[k]) && s[h].InUse() && !s[h].mode.Allocated? && s[h].internalAddress == s[k].End()
  {
    assert SlotOk(c, s[h]) && SlotOk(c, s[k]) && Apart(s[h], s[k]) && Named(c, h, s[h]);
  }

  lemma TidyTable(c: Config, a: Arena)
    requires Good(c, a)
    ensures c.page > 0 && Tidy(c, a.slots) && Separate(a.slots) && Partition(a.slots, a.chunks) && AllNamed(c, a.slots)
    ensures forall i :: 0 <= i < |a.slots| && a.slots[i].InUse() ==> a.slots[i].internalSize > 0
  {
  }

  /** The slot to be freed does not hold the current table. */
  lemma NotTheTable(c: Config, a: Arena, k: nat, internal: bool)
    requires Good(c, a) && k < |a.slots| && (internal ==> a.slots[k].userAddress != a.listAddress)
    requires a.slots[k].mode.Allocated? || (internal && a.slots[k].mode.InternalUse?)
    ensures Releasable(a, k)
  {
  }

  /** A slot that touches no idle one is given back as it is. */
  lemma FreedAlone(c: Config, s: seq<Slot>, k: nat)
    requires Alone(s, k) && s[k].internalSize > 0
    ensures FreedTable(c, s, k) == s[k := Vacated(c, s[k])]
  {
    hide EndingAt, StartingAt;
    var r := s[k := s[k].(mode := if c.protectFree then Protected else Free)];
    var p, q := EndingAt(r, r[k].internalAddress), StartingAt(r, r[k].End());
    assert p >= 0 ==> r[p].End() == s[k].internalAddress && p != k;
    assert q >= 0 ==> r[q].internalAddress == s[k].End() && q != k;
  }

  lemma ReleaseModes(c: Config, a: Arena, k: nat)
    requires Good(c, a) && Releasable(a, k)
    ensures var t := Released(c, a, k).slots;
            && WithMode(t, Allocated) == WithMode(a.slots, Allocated) - {a.slots[k]}
            && WithMode(t, InternalUse) == WithMode(a.slots, InternalUse) - {a.slots[k]}
  {
    var s, b := a.slots, a.slots[k];
    PositiveSlot(c, s, k);
    var v := b.(mode := if c.protectFree then Protected else Free);
    WithModeUpdate(s, k, v, Allocated);
    WithModeUpdate(s, k, v, InternalUse);
  }

  /** A client frees by address: the slot that is found is the only live buffer with that address. */
  lemma FreeModes(c: Config, a: Arena, address: nat)
    requires Good(c, a)
    ensures Freeable(a.slots, address, false) ==>
              var k := Holder(a.slots, address);
              && WithMode(a.slots, Allocated) - {a.slots[k]} == Without(WithMode(a.slots, Allocated), address)
              && WithMode(a.slots, InternalUse) - {a.slots[k]} == WithMode(a.slots, InternalUse)
              && forall access :: (forall x :: a.slots[k].Covers(x) ==> x !in access) ==>
                   Closed(a.slots, address, access)
  {
    hide Good, Tidy, Separate, Holder;
    if Freeable(a.slots, address, false) {
      TidyTable(c, a);
      OnlyHolder(c, a.slots, Holder(a.slots, address));
    }
  }

  lemma OnlyHolder(c: Config, s: seq<Slot>, k: nat)
    requires c.page > 0 && Tidy(c, s) && Separate(s) && k < |s| && s[k].mode.Allocated?
    ensures forall x :: x in WithMode(s, Allocated) && x.userAddress == s[k].userAddress ==> x == s[k]
  {
    forall x | x in WithMode(s, Allocated) && x.userAddress == s[k].userAddress
      ensures x == s[k]
    {
      var i :| 0 <= i < |s| && s[i] == x;
      OneUserAddress(c, s, i, k);
    }
  }

  /** Live buffers have different addresses. */
  lemma OneUserAddress(c: Config, s: seq<Slot>, i: nat, k: nat)
    requires c.page > 0 && Tidy(c, s) && Separate(s) && i < |s| && k < |s|
    requires s[i].mode.Allocated? && s[k].mode.Allocated? && s[i].userAddress == s[k].userAddress
    ensures i == k
  {
    assert SlotOk(c, s[i]) && SlotOk(c, s[k]);
  }

  lemma PositiveAddress(c: Config, s: seq<Slot>, k: nat)
    requires c.page > 0 && Tidy(c, s) && k < |s| && s[k].mode.Allocated?
    ensures s[k].userAddress > 0
  {
    assert SlotOk(c, s[k]);
  }

  lemma PositiveSlot(c: Config, s: seq<Slot>, i: nat)
    requires c.page > 0 && Tidy(c, s) && i < |s| && s[i].InUse()
    ensures s[i].internalSize > 0 && s[i].internalAddress > 0
  {
    assert SlotOk(c, s[i]);
  }

  /** Merging to the left does not disturb what was found on the right. */
  lemma NextSurvivesMerge(c: Config, a: Arena, p: nat, k: nat)
    requires Pending(c, a, k, true, true) && CanMerge(a.slots, p, k)
    ensures forall q :: NextFound(a.slots, k, q) ==> NextFound(Merged(a.slots, p, k), p, q)
  {
    PositiveSlot(c, a.slots, p);
    PositiveSlot(c, a.slots, k);
    MergeKeepsNext(a.slots, p, k);
  }

  lemma MergeKeepsNext(s: seq<Slot>, p: nat, k: nat)
    requires CanMerge(s, p, k) && s[p].internalSize > 0 && s[k].internalSize > 0
    ensures forall q :: NextFound(s, k, q) ==> NextFound(Merged(s, p, k), p, q)
  {
    var t := Merged(s, p, k);
    forall q | NextFound(s, k, q)
      ensures NextFound(t, p, q)
    {
      assert t[p].End() == s[k].End();
      assert q >= 0 ==> q != k && q != p;
    }
  }

  lemma PendingSlot(c: Config, a: Arena, k: nat)
    requires Pending(c, a, k, false, false)
    ensures var v := a.slots[k].(userAddress := a.slots[k].internalAddress, userSize := a.slots[k].internalSize);
            SlotOk(c, v) && Named(c, k, v)
    ensures Separate(a.slots) && a.slots[k].internalSize > 0 && a.slots[k].InUse() && Canonical(a.slots, a.chunks)
  {
    hide CanonicalBut, Canonical, Fenced;
    assert SlotOk(c, a.slots[k]);
    NothingPending(a.slots, a.chunks, k);
  }

  lemma FinishFree(c: Config, a: Arena, k: nat)
    requires Pending(c, a, k, false, false)
    ensures var t := a.slots[k :=
              a.slots[k].(userAddress := a.slots[k].internalAddress, userSize := a.slots[k].internalSize)];
            && Good(c, a.(slots := t))
            && WithMode(t, Allocated) == WithMode(a.slots, Allocated)
            && WithMode(t, InternalUse) == WithMode(a.slots, InternalUse)
  {
    hide SlotOk, Separate, FencedSlot, Fenced, Partition, Tidy, CountUnused, CanonicalBut, Canonical;
    var s := a.slots;
    var v := s[k].(userAddress := s[k].internalAddress, userSize := s[k].internalSize);
    PendingSlot(c, a, k);
    TidyUpdate(c, s, k, v);
    RelabelPartition(s, a.chunks, k, v);
    CountUpdate(s, k, v);
    WithModeUpdate(s, k, v, Allocated);
    WithModeUpdate(s, k, v, InternalUse);
    RelabelFenced(c, s, k, v, a.access, a.used);
    RelabelCanonical(s, a.chunks, k, v);
  }

  // ---- Growing the table ----

  lemma CountKept(c: Config, a: Arena)
    requires Good(c, a)
    ensures a.unUsed == CountUnused(a.slots) && c.page > 0 && Intact(c, a.slots, a.chunks, a.access, a.used)
  {
  }

  lemma CanUse(c: Config, s: seq<Slot>, f: nat, e: nat, alignment: nat, size: nat, internal: bool)
    requires c.page > 0 && f < |s| && e < |s| && f != e && Fits(s[f], InternalSize(c, alignment, size)) && !s[e].InUse()
    requires internal ==> size > 0 && Aligned(c.page, size) && alignment == c.alignment
    ensures Placeable(c, s, f, e, alignment, size, internal)
  {
  }

  lemma GrowSize(c: Config, a: Arena)
    requires Good(c, a)
    ensures c.page > 0 && Aligned(c.page, a.listSize + c.page) && a.table.userAddress == a.listAddress
  {
    TableAligned(c, a);
    AlignedPage(c.page);
    AlignedSum(c.page, a.listSize, c.page);
  }

  /** The table after it was copied to the front of the larger buffer `b`. */
  ghost function Grown(a: Arena, b: Slot, newSize: nat): Arena {
    a.(slots := a.slots + EmptySlots(a.perPage),
       listAddress := b.userAddress, listSize := newSize, unUsed := a.unUsed + a.perPage, table := b)
  }

  lemma GrowGood(c: Config, a: Arena, b: Slot, newSize: nat)
    requires Good(c, a) && newSize == a.listSize + c.page
    requires b in WithMode(a.slots, InternalUse) && b != a.table && b.userSize == newSize
    ensures Good(c, Grown(a, b, newSize)) && a.perPage >= 7
    ensures WithMode(Grown(a, b, newSize).slots, Allocated) == WithMode(a.slots, Allocated)
    ensures WithMode(Grown(a, b, newSize).slots, InternalUse) == WithMode(a.slots, InternalUse)
  {
    var t := a.slots + EmptySlots(a.perPage);
    CountAppendEmpty(a.slots, a.perPage);
    ExtendModes(a.slots, a.perPage, Allocated);
    ExtendModes(a.slots, a.perPage, InternalUse);
    ExtendIntact(c, a.slots, a.perPage, a.chunks, a.access, a.used);
  }

  lemma ExtendModes(s: seq<Slot>, n: nat, m: Mode)
    requires !m.NotInUse?
    ensures WithMode(s + EmptySlots(n), m) == WithMode(s, m)
  {
    var t := s + EmptySlots(n);
    forall x | x in WithMode(s, m)
      ensures x in WithMode(t, m)
    {
      var i :| 0 <= i < |s| && s[i].mode == m && s[i] == x;
      assert t[i] == x;
    }
  }

  lemma ExtendIntact(c: Config, s: seq<Slot>, n: nat, chunks: seq<Chunk>, access: iset<int>, used: iset<int>)
    requires c.page > 0 && Intact(c, s, chunks, access, used)
    ensures Intact(c, s + EmptySlots(n), chunks, access, used)
  {
    hide SlotOk, FencedSlot, EmptySlots;
    var t := s + EmptySlots(n);
    Extended(s, n);
    ExtendTidy(c, s, t, access, used);
    ExtendPartition(s, t, chunks);
    ExtendCanonical(s, t, chunks);
  }

  ghost predicate Extends(s: seq<Slot>, t: seq<Slot>) {
    |s| <= |t| && forall i :: 0 <= i < |t| ==> t[i] == if i < |s| then s[i] else EMPTY_SLOT
  }

  lemma Extended(s: seq<Slot>, n: nat)
    ensures Extends(s, s + EmptySlots(n))
  {
  }

  lemma ExtendTidy(c: Config, s: seq<Slot>, t: seq<Slot>, access: iset<int>, used: iset<int>)
    requires c.page > 0 && Extends(s, t) && Tidy(c, s) && Fenced(c, s, access, used)
    ensures Tidy(c, t) && Fenced(c, t, access, used)
  {
    hide SlotOk, FencedSlot;
    EmptyIsFine(c, access, used);
  }

  lemma EmptyIsFine(c: Config, access: iset<int>, used: iset<int>)
    requires c.page > 0
    ensures SlotOk(c, EMPTY_SLOT) && FencedSlot(c, EMPTY_SLOT, access, used)
  {
  }

  lemma ExtendPartition(s: seq<Slot>, t: seq<Slot>, chunks: seq<Chunk>)
    requires Extends(s, t) && Partition(s, chunks)
    ensures Partition(t, chunks)
  {
    forall x: int
      ensures Covered(s, x) <==> Covered(t, x)
    {
      if Covered(s, x) {
        var i :| 0 <= i < |s| && s[i].Covers(x);
        assert t[i].Covers(x);
      }
    }
  }

  lemma ExtendCanonical(s: seq<Slot>, t: seq<Slot>, chunks: seq<Chunk>)
    requires Extends(s, t) && Canonical(s, chunks)
    ensures Canonical(t, chunks)
  {
    hide ChunkStart;
    forall i, j | 0 <= i < |t| && 0 <= j < |t| && Mergeable(t[i], t[j])
      ensures ChunkStart(chunks, t[j].internalAddress)
    {
      assert Mergeable(s[i], s[j]);
    }
  }

  /** The old table can be freed and is then the only thing that goes away. */
  lemma OldTableFreeable(c: Config, a: Arena, former: Slot)
    requires Good(c, a) && former != a.table && WithMode(a.slots, InternalUse) == {former, a.table}
    ensures former.userAddress != 0 && former.userAddress != a.listAddress
    ensures Freeable(a.slots, former.userAddress, true)
    ensures var k := Holder(a.slots, former.userAddress);
            && k >= 0
            && WithMode(a.slots, Allocated) - {a.slots[k]} == WithMode(a.slots, Allocated)
            && WithMode(a.slots, InternalUse) - {a.slots[k]} == {a.table}
  {
    hide Good, Tidy, Separate, Holder, AllNamed;
    TidyTable(c, a);
    assert former in WithMode(a.slots, InternalUse) && a.table in WithMode(a.slots, InternalUse);
    var i :| 0 <= i < |a.slots| && a.slots[i] == former;
    var j :| 0 <= j < |a.slots| && a.slots[j] == a.table;
    assert a.table.userAddress == a.listAddress by { GrowSize(c, a); }
    TableAddresses(c, a.slots, i, j);
    var k := Holder(a.slots, former.userAddress);
    if k < i { FirstIsTable(c, a.slots, k, i); }
  }

  lemma TableAddresses(c: Config, s: seq<Slot>, i: nat, j: nat)
    requires c.page > 0 && Tidy(c, s) && Separate(s) && i < |s| && j < |s| && i != j
    requires s[i].mode.InternalUse? && s[j].mode.InternalUse?
    ensures s[i].userAddress != 0 && s[i].userAddress != s[j].userAddress
  {
    assert SlotOk(c, s[i]) && SlotOk(c, s[j]) && Apart(s[i], s[j]);
  }

  /** Nothing in front of a table in the slot list hides it. */
  lemma FirstIsTable(c: Config, s: seq<Slot>, k: nat, i: nat)
    requires c.page > 0 && Tidy(c, s) && Separate(s) && AllNamed(c, s) && k < i < |s|
    requires s[i].mode.InternalUse?
    ensures s[k].userAddress != s[i].userAddress
  {
    assert SlotOk(c, s[i]) && SlotOk(c, s[k]) && Apart(s[i], s[k]) && Named(c, k, s[k]) && Named(c, i, s[i]);
  }

  lemma FreeableIsLive(s: seq<Slot>, address: nat)
    ensures Freeable(s, address, false) ==> Live(s, address)
  {
    if Freeable(s, address, false) { assert s[Holder(s, address)] in WithMode(s, Allocated); }
  }

  /** Without empty buffers fenced from below, free takes back exactly the live buffers. */
  lemma PlainFreeable(c: Config, a: Arena, address: nat)
    requires Good(c, a) && address != 0 && Plain(c, WithMode(a.slots, Allocated), address)
    ensures Freeable(a.slots, address, false) <==> Live(a.slots, address)
  {
    hide Good, Holder;
    if Live(a.slots, address) {
      var b :| b in WithMode(a.slots, Allocated) && b.userAddress == address;
      var k :| 0 <= k < |a.slots| && a.slots[k] == b;
      LiveIsFreeable(c, a, k);
    }
    FreeableIsLive(a.slots, address);
  }

  lemma FilledBuffer(c: Config, start: nat, alignment: nat, size: nat)
    requires c.page > 0
    ensures Hollow(c, NewSlot(c, start, alignment, size, false)) <==> c.below && size == 0
  {
  }

  /** What the lookup in realloc finds once the new buffer `b` stands beside the old ones. */
  lemma ReallocTarget(c: Config, before: Arena, a: Arena, b: Slot, address: nat)
    requires Good(c, before) && Good(c, a) && address != 0 && b !in WithMode(before.slots, Allocated)
    requires WithMode(a.slots, Allocated) == WithMode(before.slots, Allocated) + {b}
    ensures Plain(c, WithMode(before.slots, Allocated), address) && !Hollow(c, b) ==>
              Plain(c, WithMode(a.slots, Allocated), address)
    ensures Freeable(a.slots, address, false) ==> Live(before.slots, address) || b.userAddress == address
    ensures Plain(c, WithMode(a.slots, Allocated), address) ==>
              && (Freeable(a.slots, address, false) <==>
                    Freeable(before.slots, address, false) || b.userAddress == address)
              && (Freeable(before.slots, address, false) ==> b.userAddress != address)
    ensures b in Without(WithMode(a.slots, Allocated), address) <==> b.userAddress != address
  {
    hide Good, WithMode, Freeable, Hollow;
    assert b in WithMode(a.slots, Allocated);
    FreeableIsLive(a.slots, address);
    if Plain(c, WithMode(a.slots, Allocated), address) {
      PlainFreeable(c, before, address);
      PlainFreeable(c, a, address);
      assert Live(before.slots, address) ==> Live(a.slots, address);
      if Live(before.slots, address) {
        var o :| o in WithMode(before.slots, Allocated) && o.userAddress == address;
        assert o in WithMode(a.slots, Allocated);
        if b.userAddress == address { OneBuffer(c, a, o, b); }
      }
    }
  }

  lemma OneBuffer(c: Config, a: Arena, x: Slot, y: Slot)
    requires Good(c, a) && x in WithMode(a.slots, Allocated) && y in WithMode(a.slots, Allocated)
    requires x.userAddress == y.userAddress
    ensures x == y
  {
    var i :| 0 <= i < |a.slots| && a.slots[i] == x;
    var j :| 0 <= j < |a.slots| && a.slots[j] == y;
    OneUserAddress(c, a.slots, i, j);
  }

  lemma NewAddress(c: Config, a: Arena, bs: set<Slot>, b: Slot)
    requires Good(c, a) && WithMode(a.slots, Allocated) == bs + {b} && b !in bs
    ensures NewTo(bs, b)
  {
    hide Good, WithMode;
    assert b in bs + {b};
    NotZero(c, a, b);
    forall o | o in bs
      ensures o.userAddress != b.userAddress
    {
      assert o in bs + {b};
      if o.userAddress == b.userAddress { OneBuffer(c, a, o, b); }
    }
  }

  lemma NotZero(c: Config, a: Arena, b: Slot)
    requires Good(c, a) && b in WithMode(a.slots, Allocated)
    ensures b.userAddress != 0
  {
    var i :| 0 <= i < |a.slots| && a.slots[i] == b;
    assert SlotOk(c, a.slots[i]);
  }

  // ---- What a client may rely on ----

  /**
   Every live buffer is fully accessible, touching the byte just outside it on the fenced side faults, and no
   other live buffer shares a byte or an address with it.
   */
  lemma FenceGuarantee(c: Config, a: Arena, b: Slot, other: Slot)
    requires Good(c, a) && b in WithMode(a.slots, Allocated) && other in WithMode(a.slots, Allocated)
    ensures forall x :: b.userAddress <= x < b.userAddress + b.userSize ==> x in a.access
    ensures c.below ==> forall x :: b.userAddress - c.page <= x < b.userAddress ==> x !in a.access
    ensures !c.below ==> forall x :: b.userAddress + b.userSize <= x < b.userAddress + b.userSize + c.page ==>
            x !in a.access
    ensures other != b ==> other.userAddress != b.userAddress
    ensures other != b ==>
            other.userAddress + other.userSize <= b.userAddress || b.userAddress + b.userSize <= other.userAddress
  {
    hide Aligned, FencedSlot;
    var i :| 0 <= i < |a.slots| && a.slots[i] == b;
    var j :| 0 <= j < |a.slots| && a.slots[j] == other;
    assert SlotOk(c, a.slots[i]) && SlotOk(c, a.slots[j]);
    BufferFence(c, b, a.access, a.used);
    if other != b { assert Apart(a.slots[i], a.slots[j]); }
  }

  lemma BufferFence(c: Config, b: Slot, access: iset<int>, used: iset<int>)
    requires c.page > 0 && SlotOk(c, b) && b.mode.Allocated? && FencedSlot(c, b, access, used)
    ensures forall x :: b.userAddress <= x < b.userAddress + b.userSize ==> x in access
    ensures c.below ==> forall x :: b.userAddress - c.page <= x < b.userAddress ==> x !in access
    ensures !c.below ==> forall x :: b.userAddress + b.userSize <= x < b.userAddress + b.userSize + c.page ==>
            x !in access
  {
  }

  /** A byte of memory that was given back stays out of reach for as long as it is free or protected. */
  lemma FreedStaysClosed(c: Config, a: Arena, x: int, i: nat)
    requires Good(c, a) && x in a.used && i < |a.slots| && a.slots[i].Idle() && a.slots[i].Covers(x)
    ensures x !in a.access
  {
    assert FencedSlot(c, a.slots[i], a.access, a.used);
  }

  lemma FirstCount(c: Config, s: seq<Slot>)
    requires c.Valid() && |s| == c.page / SLOT_BYTES && s[0].InUse() && s[1].InUse()
    requires s == s[..2] + EmptySlots(|s| - 2)
    ensures CountUnused(s) == |s| - 2
  {
    CountAppendEmpty(s[..2], |s| - 2);
    assert s[..2][..1] == s[..1] && s[..1][..0] == [];
    assert CountUnused(s[..1]) == 0;
  }

  /** The first table: slot 0 holds the table, slot 1 the rest of the chunk, all others are empty. */
  ghost predicate FirstTable(c: Config, base: nat, s: seq<Slot>)
    requires c.Valid()
  {
    && base > 0 && Aligned(c.page, base)
    && |s| == c.page / SLOT_BYTES
    && s[0] == Slot(base, base, c.page, c.page, InternalUse)
    && s[1] == Slot(base + c.page, base + c.page, ChunkSize(c, 0) - c.page, ChunkSize(c, 0) - c.page, Free)
    && forall i :: 2 <= i < |s| ==> s[i] == EMPTY_SLOT
  }

  lemma FirstTidy(c: Config, base: nat, s: seq<Slot>)
    requires c.Valid() && FirstTable(c, base, s)
    ensures Tidy(c, s)
  {
    RoundUpAligned(c.page, MEMORY_CREATION_SIZE);
    AlignedPage(c.page);
    AlignedSum(c.page, base, c.page);
    AlignedDifference(c.page, ChunkSize(c, 0), c.page);
    assert SlotOk(c, s[0]) && SlotOk(c, s[1]);
  }

  lemma FirstPartition(c: Config, base: nat, s: seq<Slot>, chunks: seq<Chunk>)
    requires c.Valid() && FirstTable(c, base, s)
    requires chunks == [Chunk(base, ChunkSize(c, 0))]
    ensures Partition(s, chunks) && Canonical(s, chunks)
    ensures forall x :: x in Bytes(base, ChunkSize(c, 0)) ==> Mapped(chunks, x)
  {
    assert chunks[0] == Chunk(base, ChunkSize(c, 0));
    forall x: int
      ensures Mapped(chunks, x) <==> Covered(s, x)
    {
      assert s[0].Covers(x) || s[1].Covers(x) <==> chunks[0].Covers(x);
    }
  }

  lemma FirstFenced(c: Config, base: nat, s: seq<Slot>)
    requires c.Valid() && FirstTable(c, base, s)
    ensures Fenced(c, s, Bytes(base, c.page), Bytes(base, ChunkSize(c, 0)))
    ensures WithMode(s, InternalUse) == {s[0]} && WithMode(s, Allocated) == {}
  {
    assert FencedSlot(c, s[0], Bytes(base, c.page), Bytes(base, ChunkSize(c, 0)));
    assert FencedSlot(c, s[1], Bytes(base, c.page), Bytes(base, ChunkSize(c, 0)));
    assert s[0] in WithMode(s, InternalUse);
  }
}
