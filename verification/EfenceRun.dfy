/** Whole runs of the Electric Fence allocator: any sequence of client requests, from start-up on. */
module EfenceRun {
  import opened PageMath
  import opened EfenceTable
  import opened Efence

  datatype Request =
    | Malloc(size: nat)
    | Memalign(alignment: nat, size: nat)
    | Realloc(address: nat, size: nat)
    | Free(address: nat)

  /** What a client asked for. */
  datatype Asked = Asked(alignment: nat, size: nat)

  /** The client's books: the addresses it holds and what it asked for. */
  type Ledger = map<nat, Asked>

  function Ask(c: Config, q: Request): Asked
    requires !q.Free?
  {
    match q
    case Malloc(size) => Asked(c.alignment, size)
    case Memalign(alignment, size) => Asked(alignment, size)
    case Realloc(_, size) => Asked(c.alignment, size)
  }

  /** The client holds an empty buffer fenced from below there: the one case in which free can fail to find it. */
  predicate Doubtful(c: Config, m: Ledger, address: nat) {
    address in m && c.below && m[address].size == 0
  }

  /** The books after one more answered request. */
  function After(c: Config, m: Ledger, q: Request, o: Outcome): Ledger
    requires o.Done?
  {
    match q
    case Malloc(_) => m[o.address := Ask(c, q)]
    case Memalign(_, _) => m[o.address := Ask(c, q)]
    case Realloc(a, _) => if a == 0 then m[o.address := Ask(c, q)] else m[o.address := Ask(c, q)] - {a}
    case Free(a) => m - {a}
  }

  /** Which answers a client may get, by its own books: when the process aborts, and that an address is a new one. */
  predicate Answered(c: Config, m: Ledger, q: Request, o: Outcome) {
    && !o.InternalError?
    && (o.Done? && !q.Free? ==> o.address != 0 && o.address !in m)
    && match q
       case Malloc(size) => o.Abort? <==> size == 0 && !c.allowZero
       case Memalign(_, size) => o.Abort? <==> size == 0 && !c.allowZero
       case Free(a) => !o.OutOfMemory? && (Doubtful(c, m, a) || (o.Abort? <==> a != 0 && a !in m))
       case Realloc(a, size) =>
         if Doubtful(c, m, a) then size == 0 && !c.allowZero ==> o.Abort?
         else if a == 0 || a in m || (size == 0 && !c.allowZero) then o.Abort? <==> size == 0 && !c.allowZero
         else o.Done? ==> o.address == a
  }

  /** The books agree with the table, buffer by buffer. */
  ghost predicate Records(c: Config, bs: set<Slot>, m: Ledger) {
    && (forall b :: b in bs ==>
        b.userAddress in m && b.userSize == UserSize(c, m[b.userAddress].alignment, m[b.userAddress].size))
    && (forall a :: a in m ==> exists b :: b in bs && b.userAddress == a)
  }

  lemma RecordsAdd(c: Config, bs: set<Slot>, m: Ledger, b: Slot, asked: Asked)
    requires Records(c, bs, m) && b.userAddress !in m && b.userSize == UserSize(c, asked.alignment, asked.size)
    ensures Records(c, bs + {b}, m[b.userAddress := asked])
  {
    hide UserSize;
    var t, n := bs + {b}, m[b.userAddress := asked];
    forall a | a in n
      ensures exists o :: o in t && o.userAddress == a
    {
      if a == b.userAddress {
        assert b in t;
      } else {
        var o :| o in bs && o.userAddress == a;
        assert o in t;
      }
    }
  }

  lemma RecordsWithout(c: Config, bs: set<Slot>, m: Ledger, address: nat)
    requires Records(c, bs, m)
    ensures Records(c, Without(bs, address), m - {address})
  {
    hide UserSize;
    forall a | a in m - {address}
      ensures exists o :: o in Without(bs, address) && o.userAddress == a
    {
      var o :| o in bs && o.userAddress == a;
      assert o in Without(bs, address);
    }
  }

  /** An address is on the books exactly when a live buffer has it, and free finds it unless it is doubtful. */
  lemma OnTheBooks(c: Config, a: Arena, m: Ledger, address: nat)
    requires Good(c, a) && Records(c, WithMode(a.slots, Allocated), m)
    ensures Live(a.slots, address) <==> address in m
    ensures !Doubtful(c, m, address) ==> Plain(c, WithMode(a.slots, Allocated), address)
    ensures !Doubtful(c, m, address) && address != 0 ==> (Freeable(a.slots, address, false) <==> address in m)
  {
    hide WithMode, Good, Freeable;
    if !Doubtful(c, m, address) && address != 0 { PlainFreeable(c, a, address); }
  }

  /** A new buffer does not get an address that is on the books. */
  lemma StillPlain(c: Config, bs: set<Slot>, m: Ledger, b: Slot, address: nat)
    requires Records(c, bs, m) && NewTo(bs, b) && address in m
    ensures b.userAddress != address && (Plain(c, bs, address) ==> Plain(c, bs + {b}, address))
  {
    hide UserSize, Hollow;
  }

  /** Some slot hides the live buffer with this address from free. */
  predicate Hidden(c: Config, s: seq<Slot>, address: nat) {
    exists k :: 0 <= k < |s| && s[k].mode.Allocated? && s[k].userAddress == address && Shadowed(c, s, k)
  }

  lemma HiddenIsLost(c: Config, a: Arena, address: nat)
    requires Good(c, a) && Live(a.slots, address)
    ensures Freeable(a.slots, address, false) <==> !Hidden(c, a.slots, address)
  {
    hide Good, Freeable, Shadowed;
    var b :| b in WithMode(a.slots, Allocated) && b.userAddress == address;
    forall k | 0 <= k < |a.slots| && a.slots[k].mode.Allocated? && a.slots[k].userAddress == address
      ensures Freeable(a.slots, address, false) <==> !Shadowed(c, a.slots, k)
    {
      LiveIsFreeable(c, a, k);
    }
  }

  /** The bytes a client was given lie in the slot made for them. */
  lemma UserBytesInside(c: Config, start: nat, alignment: nat, size: nat)
    requires c.page > 0
    ensures var b := NewSlot(c, start, alignment, size, false);
            Bytes(b.userAddress, size) <= Bytes(b.internalAddress, b.internalSize)
            && b.userSize == UserSize(c, alignment, size)
  {
    hide InternalSize, UserSize;
  }

  function PlanOf(a: Arena): Plan { Plan(a.slots, a.listAddress, a.listSize) }

  /** What the allocator does with a request, given the places at which the system grants chunks. */
  function TurnOf(c: Config, p: Plan, q: Request, grants: seq<nat>): (t: Turn)
    requires c.page > 0
    ensures |t.made| <= |grants|
  {
    match q
    case Malloc(size) => Allot(c, p, c.alignment, size, grants)
    case Memalign(alignment, size) => Allot(c, p, alignment, size, grants)
    case Realloc(address, size) => Resize(c, p, address, size, grants)
    case Free(address) => GiveBack(c, p, address)
  }

  /** One request against the allocator. */
  method Serve(al: Allocator, q: Request, ghost m: Ledger) returns (o: Outcome)
    requires al.Valid() && Records(al.cfg, al.Buffers(), m)
    modifies al
    ensures Answered(al.cfg, m, q, o)
    ensures q.Free? && q.address in m ==> (o.Abort? <==> Hidden(al.cfg, old(al.slots), q.address))
    ensures old(al.chunks) <= al.chunks
    ensures var made := Added(old(al.chunks), al.chunks);
            Follows(o, al.Layout(), made, TurnOf(al.cfg, old(al.Layout()), q, Bases(made)))
    ensures o.OutOfMemory? || al.chunks != old(al.chunks) ==>
              !q.Free? && NeedsMemory(al.cfg, old(al.Layout()), Ask(al.cfg, q).alignment, q.size)
    ensures o.Done? ==> al.Valid() && old(al.used) <= al.used
    ensures o.Done? ==> Records(al.cfg, al.Buffers(), After(al.cfg, m, q, o))
    ensures o.Done? && !q.Free? ==> Bytes(o.address, q.size) <= al.used && Bytes(o.address, q.size) <= al.given
    ensures o.Done? ==> old(al.given) <= al.given
    ensures o.Done? && !q.Free? && al.cfg.protectFree ==> Bytes(o.address, q.size) !! old(al.given)
  {
    hide Good, WithMode, NewSlot, UserSize, Without, Records, Freeable, Bytes, Closed, Plain, Hidden, Live, NeedsMemory,
         Allot, GiveBack, Resize, CountUnused;
    ghost var bs := al.Buffers();
    ghost var b;
    match q {
      case Free(address) =>
        OnTheBooks(al.cfg, al.View(), m, address);
        NothingAtZero(al.cfg, al.View(), m);
        if address in m { HiddenIsLost(al.cfg, al.View(), address); }
        o := al.Free(address);
        if address == 0 { assert m - {address} == m; } else { RecordsWithout(al.cfg, bs, m, address); }
      case Malloc(size) =>
        o, b := al.Malloc(size);
        if o.Done? { Given(al.cfg, bs, m, b, Ask(al.cfg, q)); }
      case Memalign(alignment, size) =>
        o, b := al.Memalign(alignment, size);
        if o.Done? { Given(al.cfg, bs, m, b, Ask(al.cfg, q)); }
      case Realloc(address, size) =>
        OnTheBooks(al.cfg, al.View(), m, address);
        ghost var mid;
        o, b, mid := al.Realloc(address, size);
        if address in m && NewTo(bs, b) { StillPlain(al.cfg, bs, m, b, address); }
        if o.Done? {
          Given(al.cfg, bs, m, b, Ask(al.cfg, q));
          RecordsWithout(al.cfg, bs + {b}, m[b.userAddress := Ask(al.cfg, q)], address);
        }
    }
  }

  lemma NothingAtZero(c: Config, a: Arena, m: Ledger)
    requires Good(c, a) && Records(c, WithMode(a.slots, Allocated), m)
    ensures 0 !in m
  {
    hide Good, WithMode, UserSize;
    if 0 in m {
      var b :| b in WithMode(a.slots, Allocated) && b.userAddress == 0;
      NotZero(c, a, b);
      assert false;
    }
  }

  /** A buffer that was handed out goes on the books under a new address. */
  lemma Given(c: Config, bs: set<Slot>, m: Ledger, b: Slot, asked: Asked)
    requires c.page > 0 && Records(c, bs, m) && NewTo(bs, b)
    requires b == NewSlot(c, b.internalAddress, asked.alignment, asked.size, false)
    ensures b.userAddress != 0 && b.userAddress !in m
    ensures Records(c, bs + {b}, m[b.userAddress := asked])
    ensures Bytes(b.userAddress, asked.size) <= Bytes(b.internalAddress, b.internalSize)
  {
    hide NewSlot, UserSize;
    UserBytesInside(c, b.internalAddress, asked.alignment, asked.size);
    RecordsAdd(c, bs, m, b, asked);
  }

  predicate AllDone(outcomes: seq<Outcome>) {
    forall k :: 0 <= k < |outcomes| ==> outcomes[k].Done?
  }

  /** The books after a run of answered requests. */
  function Books(c: Config, requests: seq<Request>, outcomes: seq<Outcome>): Ledger
    requires |requests| == |outcomes| && AllDone(outcomes)
  {
    var n := |requests| - 1;
    if n < 0 then map[] else After(c, Books(c, requests[..n], outcomes[..n]), requests[n], outcomes[n])
  }

  /** Every answer is the one the books of that moment allow. */
  predicate AllAnswered(c: Config, requests: seq<Request>, outcomes: seq<Outcome>)
    requires |outcomes| <= |requests|
  {
    forall k :: 0 <= k < |outcomes| ==>
      AllDone(outcomes[..k]) && Answered(c, Books(c, requests[..k], outcomes[..k]), requests[k], outcomes[k])
  }

  /** All bytes given out so far belong to the history `used`. */
  ghost predicate History(requests: seq<Request>, outcomes: seq<Outcome>, used: iset<int>)
    requires |outcomes| <= |requests|
  {
    forall k :: 0 <= k < |outcomes| && !requests[k].Free? && outcomes[k].Done? ==>
      Bytes(outcomes[k].address, requests[k].size) <= used
  }

  /** No byte was given out twice, not even after it was given back. */
  ghost predicate NeverReused(requests: seq<Request>, outcomes: seq<Outcome>)
    requires |outcomes| <= |requests|
  {
    forall k, l :: 0 <= k < l < |outcomes| && Gave(requests[k], outcomes[k]) && Gave(requests[l], outcomes[l]) ==>
      Bytes(outcomes[k].address, requests[k].size) !! Bytes(outcomes[l].address, requests[l].size)
  }

  predicate Gave(q: Request, o: Outcome) {
    !q.Free? && o.Done?
  }

  lemma NothingGiven(requests: seq<Request>)
    ensures NeverReused(requests, [])
  {
  }

  lemma NotReused(requests: seq<Request>, before: seq<Outcome>, o: Outcome, given: iset<int>)
    requires |before| < |requests| && NeverReused(requests, before) && History(requests, before, given)
    requires var q := requests[|before|]; Gave(q, o) ==> Bytes(o.address, q.size) !! given
    ensures NeverReused(requests, before + [o])
  {
    hide Bytes;
    var t := before + [o];
    assert forall k :: 0 <= k < |before| ==> t[k] == before[k];
  }

  /** What a client may touch of what it holds, and what it may not touch next to it. */
  ghost predicate Guarded(c: Config, access: iset<int>, address: nat, size: nat) {
    && (forall x :: address <= x < address + size ==> x in access)
    && (c.below ==> forall x :: address - c.page <= x < address ==> x !in access)
    && (!c.below ==> forall x :: address + size <= x < address + size + c.page ==> x !in access)
  }

  /** The fences around everything on the books. */
  ghost predicate AllGuarded(c: Config, access: iset<int>, m: Ledger) {
    forall a :: a in m ==> Guarded(c, access, a, UserSize(c, m[a].alignment, m[a].size))
  }

  /**
   In the terms of the request: the bytes asked for can be touched, and running over them is caught, at the latest
   less than the alignment behind them or, when the fence is below, in front of them.
   */
  ghost predicate Caught(c: Config, access: iset<int>, address: nat, asked: Asked) {
    && (forall x :: address <= x < address + asked.size ==> x in access)
    && (c.below ==> Shut(access, address - c.page, c.page))
    && (!c.below ==> exists r :: Slack(r, asked) && Shut(access, address + r, c.page))
  }

  ghost predicate Shut(access: iset<int>, from: int, n: nat) {
    forall x :: from <= x < from + n ==> x !in access
  }

  /** No more bytes than were asked for, or more by less than the alignment. */
  predicate Slack(r: int, asked: Asked) {
    r == asked.size || asked.size < r < asked.size + asked.alignment
  }

  ghost predicate AllCaught(c: Config, access: iset<int>, m: Ledger) {
    forall a :: a in m ==> Caught(c, access, a, m[a])
  }

  lemma GuardedIsCaught(c: Config, access: iset<int>, m: Ledger)
    requires c.page > 0 && AllGuarded(c, access, m)
    ensures AllCaught(c, access, m)
  {
    hide UserSize;
    forall a | a in m
      ensures Caught(c, access, a, m[a])
    {
      var r := UserSize(c, m[a].alignment, m[a].size);
      assert Guarded(c, access, a, r) && Slack(r, m[a]);
      assert !c.below ==> Shut(access, a + r, c.page);
    }
  }

  /** The table takes 40 bytes a slot and lies in a buffer of its own. */
  ghost predicate TableFits(slots: seq<Slot>) {
    exists b :: b in WithMode(slots, InternalUse) && 40 * |slots| <= b.userSize
  }

  /** Byte `x` was part of what the answer `o` to the request `q` gave to the client. */
  predicate WasGiven(q: Request, o: Outcome, x: int) {
    !q.Free? && o.Done? && o.address <= x < o.address + q.size
  }

  /** What was ever given out is out of reach wherever it is free or protected now. */
  ghost predicate GivenBack(requests: seq<Request>, outcomes: seq<Outcome>, slots: seq<Slot>, access: iset<int>)
    requires |outcomes| <= |requests|
  {
    forall k, i, x :: 0 <= k < |outcomes| && 0 <= i < |slots| ==>
      WasGiven(requests[k], outcomes[k], x) && slots[i].Idle() && slots[i].Covers(x) ==> x !in access
  }

  lemma BooksGuarded(c: Config, a: Arena, m: Ledger)
    requires Good(c, a) && Records(c, WithMode(a.slots, Allocated), m)
    ensures AllGuarded(c, a.access, m)
  {
    hide Good, WithMode, UserSize;
    forall address | address in m
      ensures Guarded(c, a.access, address, UserSize(c, m[address].alignment, m[address].size))
    {
      var b :| b in WithMode(a.slots, Allocated) && b.userAddress == address;
      FenceGuarantee(c, a, b, b);
    }
  }

  lemma TableInPlace(c: Config, a: Arena)
    requires Good(c, a)
    ensures TableFits(a.slots)
  {
    hide Intact, WithMode;
  }

  lemma HistoryClosed(c: Config, a: Arena, requests: seq<Request>, outcomes: seq<Outcome>)
    requires Good(c, a) && |outcomes| <= |requests| && History(requests, outcomes, a.used)
    ensures GivenBack(requests, outcomes, a.slots, a.access)
  {
    hide Good;
    forall k, i, x | 0 <= k < |outcomes| && 0 <= i < |a.slots| && WasGiven(requests[k], outcomes[k], x)
                     && a.slots[i].Idle() && a.slots[i].Covers(x)
      ensures x !in a.access
    {
      assert x in Bytes(outcomes[k].address, requests[k].size);
      FreedStaysClosed(c, a, x, i);
    }
  }

  /** A table whose first entries are in use and whose others are empty. */
  function Table(u: seq<Slot>, n: nat): seq<Slot>
    requires |u| <= n
  {
    u + EmptySlots(n - |u|)
  }

  /** The plan at start-up: the table on the first page, the rest of the chunk free. */
  function StartPlan(c: Config, base: nat): Plan
    requires c.Valid()
  {
    var rest := ChunkSize(c, 0) - c.page;
    Plan(Table([Slot(base, base, c.page, c.page, InternalUse)]
               + [Slot(base + c.page, base + c.page, rest, rest, EfenceTable.Free)], c.page / SLOT_BYTES), base, c.page)
  }

  lemma StartTable(c: Config, base: nat, s: seq<Slot>)
    requires c.Valid() && FirstTable(c, base, s)
    ensures s == StartPlan(c, base).slots
  {
    hide ChunkSize;
  }

  /** The answers to a run of requests, up to the one that ends the process, and plan and new chunks after it. */
  datatype Forecast = Forecast(outcomes: seq<Outcome>, plan: Plan, made: seq<Chunk>)

  /** A whole run as a function of the requests and of the places at which the system grants chunks. */
  function Foresee(c: Config, p: Plan, requests: seq<Request>, grants: seq<nat>): Forecast
    requires c.page > 0
    decreases |requests|
  {
    if requests == [] then Forecast([], p, [])
    else
      var t := TurnOf(c, p, requests[0], grants);
      if !t.answer.Done? then Forecast([t.answer], p, t.made)
      else
        var f := Foresee(c, t.plan, requests[1..], grants[|t.made|..]);
        Forecast([t.answer] + f.outcomes, f.plan, t.made + f.made)
  }

  lemma TurnUses(c: Config, p: Plan, q: Request, g: seq<nat>, h: seq<nat>)
    requires c.page > 0
    ensures var t := TurnOf(c, p, q, g);
            t.answer.Done? ==>
              && Bases(t.made) == g[..|t.made|]
              && (|t.made| <= |h| && h[..|t.made|] == g[..|t.made|] ==> TurnOf(c, p, q, h) == t)
  {
    hide Allot, Holder, FreedTable;
    if !q.Free? { AllotUses(c, p, Ask(c, q).alignment, q.size, g, h); }
  }

  /** One more request at the end of a run that used up its grants. */
  lemma {:induction false} ForeseeNext(
      c: Config, p: Plan, requests: seq<Request>, g: seq<nat>, q: Request, h: seq<nat>)
    requires c.page > 0
    requires var f := Foresee(c, p, requests, g);
             |f.outcomes| == |requests| && AllDone(f.outcomes) && Bases(f.made) == g
    ensures var f, t := Foresee(c, p, requests, g), TurnOf(c, Foresee(c, p, requests, g).plan, q, h);
            Foresee(c, p, requests + [q], g + h) ==
              Forecast(f.outcomes + [t.answer], if t.answer.Done? then t.plan else f.plan, f.made + t.made)
    decreases |requests|
  {
    hide TurnOf;
    var all := requests + [q];
    if requests == [] {
      assert all == [q] && g + h == h;
    } else {
      var t := TurnOf(c, p, requests[0], g);
      var n := |t.made|;
      ForeseeFirst(c, p, requests, g);
      TurnUses(c, p, requests[0], g, g + h);
      assert (g + h)[..n] == g[..n] && (g + h)[n..] == g[n..] + h;
      assert all[0] == requests[0] && all[1..] == requests[1..] + [q];
      ForeseeNext(c, t.plan, requests[1..], g[n..], q, h);
    }
  }

  lemma ForeseeFirst(c: Config, p: Plan, requests: seq<Request>, g: seq<nat>)
    requires c.page > 0 && requests != []
    requires var f := Foresee(c, p, requests, g);
             |f.outcomes| == |requests| && AllDone(f.outcomes) && Bases(f.made) == g
    ensures var t := TurnOf(c, p, requests[0], g);
            && t.answer.Done?
            && var r := Foresee(c, t.plan, requests[1..], g[|t.made|..]);
               |r.outcomes| == |requests[1..]| && AllDone(r.outcomes) && Bases(r.made) == g[|t.made|..]
  {
    hide TurnOf;
    var f, t := Foresee(c, p, requests, g), TurnOf(c, p, requests[0], g);
    assert f.outcomes[0] == t.answer;
    var r := Foresee(c, t.plan, requests[1..], g[|t.made|..]);
    assert r.outcomes == f.outcomes[1..];
    assert Bases(r.made) == Bases(t.made + r.made)[|t.made|..];
  }

  /** Nothing is answered after the end of the process. */
  lemma {:induction false} ForeseeStops(c: Config, p: Plan, requests: seq<Request>, more: seq<Request>, g: seq<nat>)
    requires c.page > 0 && !AllDone(Foresee(c, p, requests, g).outcomes)
    ensures Foresee(c, p, requests + more, g) == Foresee(c, p, requests, g)
    decreases |requests|
  {
    hide TurnOf;
    var t := TurnOf(c, p, requests[0], g);
    assert (requests + more)[0] == requests[0] && (requests + more)[1..] == requests[1..] + more;
    if t.answer.Done? {
      var f := Foresee(c, t.plan, requests[1..], g[|t.made|..]);
      var k :| 0 <= k < |f.outcomes| + 1 && !([t.answer] + f.outcomes)[k].Done?;
      assert !f.outcomes[k - 1].Done?;
      ForeseeStops(c, t.plan, requests[1..], more, g[|t.made|..]);
    }
  }

  /** The run so far is the one that is foreseen for the chunks obtained so far. */
  ghost predicate OnCourse(
      c: Config, base: nat, requests: seq<Request>, outcomes: seq<Outcome>, slots: seq<Slot>, chunks: seq<Chunk>)
    requires c.Valid()
  {
    && |chunks| >= 1 && chunks[0] == Chunk(base, ChunkSize(c, 0))
    && var f := Foresee(c, StartPlan(c, base), requests, Bases(chunks[1..]));
       outcomes == f.outcomes && chunks[1..] == f.made && (AllDone(outcomes) ==> slots == f.plan.slots)
  }

  /** The plan of a run that is on course. */
  ghost function Course(c: Config, base: nat, requests: seq<Request>, chunks: seq<Chunk>): Plan
    requires c.Valid() && |chunks| >= 1
  {
    Foresee(c, StartPlan(c, base), requests, Bases(chunks[1..])).plan
  }

  lemma OneMoreTurn(c: Config, base: nat, requests: seq<Request>, outcomes: seq<Outcome>, p: Plan,
      chunks: seq<Chunk>, q: Request, o: Outcome, p': Plan, chunks': seq<Chunk>)
    requires c.Valid() && OnCourse(c, base, requests, outcomes, p.slots, chunks)
    requires p == Course(c, base, requests, chunks)
    requires AllDone(outcomes) && |outcomes| == |requests| && chunks <= chunks'
    requires var made := Added(chunks, chunks'); Follows(o, p', made, TurnOf(c, p, q, Bases(made)))
    ensures OnCourse(c, base, requests + [q], outcomes + [o], p'.slots, chunks')
    ensures o.Done? ==> p' == Course(c, base, requests + [q], chunks')
  {
    hide TurnOf, Foresee, StartPlan, ChunkSize;
    var made := Added(chunks, chunks');
    assert chunks'[1..] == chunks[1..] + made;
    assert Bases(chunks'[1..]) == Bases(chunks[1..]) + Bases(made);
    ForeseeNext(c, StartPlan(c, base), requests, Bases(chunks[1..]), q, Bases(made));
    assert (outcomes + [o])[|outcomes|] == o;
  }

  lemma CourseStarts(c: Config, base: nat, a: Arena)
    requires c.Valid() && FirstTable(c, base, a.slots) && a.listAddress == base && a.listSize == c.page
    requires a.chunks == [Chunk(base, ChunkSize(c, 0))]
    ensures OnCourse(c, base, [], [], a.slots, a.chunks) && PlanOf(a) == Course(c, base, [], a.chunks)
  {
    hide FirstTable, ChunkSize, Table;
    StartTable(c, base, a.slots);
  }

  lemma CourseEnds(c: Config, base: nat, requests: seq<Request>, more: seq<Request>, outcomes: seq<Outcome>,
      slots: seq<Slot>, chunks: seq<Chunk>)
    requires c.Valid() && OnCourse(c, base, requests, outcomes, slots, chunks) && !AllDone(outcomes)
    ensures OnCourse(c, base, requests + more, outcomes, slots, chunks)
  {
    hide Foresee, StartPlan, ChunkSize;
    ForeseeStops(c, StartPlan(c, base), requests, more, Bases(chunks[1..]));
  }

  /**
   Every run: it is the one that is foreseen from the requests and the chunks the system granted; no internal error
   can occur and every answer is the one the client's own books call for; as long as the process lives, the slots
   tile exactly the memory obtained, enough empty slots remain, the buffers are those on the books, each accessible
   and fenced, and whatever was given out and is free again is out of reach.
   */
  method Run(cfg: Config, base: nat, requests: seq<Request>)
    returns (outcomes: seq<Outcome>, slots: seq<Slot>, chunks: seq<Chunk>, unUsed: nat,
             ghost access: iset<int>, ghost used: iset<int>)
    requires cfg.Valid() && base > 0 && Aligned(cfg.page, base)
    ensures OnCourse(cfg, base, requests, outcomes, slots, chunks)
    ensures |outcomes| <= |requests| && AllAnswered(cfg, requests, outcomes)
    ensures |outcomes| < |requests| ==> !AllDone(outcomes)
    ensures cfg.protectFree ==> NeverReused(requests, outcomes)
    ensures AllDone(outcomes) ==>
              && Intact(cfg, slots, chunks, access, used)
              && unUsed == CountUnused(slots) && unUsed >= 5
              && Records(cfg, WithMode(slots, Allocated), Books(cfg, requests, outcomes))
              && AllGuarded(cfg, access, Books(cfg, requests, outcomes))
              && AllCaught(cfg, access, Books(cfg, requests, outcomes))
              && TableFits(slots)
              && GivenBack(requests, outcomes, slots, access)
  {
    hide Intact, CountUnused, WithMode, Records, Answered, After, Bytes, AllGuarded, AllCaught, TableFits, GivenBack,
         ChunkSize, NeverReused, FirstTable, OnCourse, Course, Good, Aligned, Books, TurnOf, NeedsMemory;
    var al := new Allocator(cfg, base);
    CourseStarts(cfg, base, al.View());
    outcomes := [];
    EmptyBooks(cfg);
    assert NeverReused(requests, []) by { NothingGiven(requests); }
    ghost var m: Ledger := map[];
    var i := 0;
    while i < |requests|
      invariant 0 <= i <= |requests| && |outcomes| == i
      invariant AllDone(outcomes) && fresh(al) && al.cfg == cfg && al.Valid() && |al.chunks| >= 1
      invariant AllAnswered(cfg, requests, outcomes) && History(requests, outcomes, al.used)
      invariant History(requests, outcomes, al.given) && (cfg.protectFree ==> NeverReused(requests, outcomes))
      invariant m == Books(cfg, requests[..i], outcomes) && Records(cfg, al.Buffers(), m)
      invariant OnCourse(cfg, base, requests[..i], outcomes, al.slots, al.chunks)
      invariant al.Layout() == Course(cfg, base, requests[..i], al.chunks)
    {
      ghost var before, p, had, given := outcomes, al.Layout(), al.chunks, al.given;
      var o := Serve(al, requests[i], m);
      outcomes := outcomes + [o];
      OneMoreAnswer(cfg, requests, before, o);
      if cfg.protectFree { NotReused(requests, before, o, given); }
      OneMoreTurn(cfg, base, requests[..i], before, p, had, requests[i], o, al.Layout(), al.chunks);
      assert requests[..i] + [requests[i]] == requests[..i + 1] && outcomes[..i] == before;
      if !o.Done? {
        assert !outcomes[i].Done?;
        CourseEnds(cfg, base, requests[..i + 1], requests[i + 1..], outcomes, al.slots, al.chunks);
        assert requests[..i + 1] + requests[i + 1..] == requests;
        break;
      }
      m := After(cfg, m, requests[i], o);
      i := i + 1;
    }
    slots, chunks, unUsed := al.slots, al.chunks, al.unUsedSlots;
    access, used := al.access, al.used;
    if AllDone(outcomes) {
      assert requests[..|requests|] == requests;
      CountKept(cfg, al.View());
      BooksGuarded(cfg, al.View(), m);
      GuardedIsCaught(cfg, access, m);
      TableInPlace(cfg, al.View());
      HistoryClosed(cfg, al.View(), requests, outcomes);
    }
  }

  lemma OneMoreAnswer(c: Config, requests: seq<Request>, before: seq<Outcome>, o: Outcome)
    requires |before| < |requests| && AllDone(before) && AllAnswered(c, requests, before)
    requires Answered(c, Books(c, requests[..|before|], before), requests[|before|], o)
    ensures AllAnswered(c, requests, before + [o])
    ensures o.Done? ==> AllDone(before + [o])
    ensures o.Done? ==> Books(c, requests[..|before| + 1], before + [o]) ==
                        After(c, Books(c, requests[..|before|], before), requests[|before|], o)
  {
    hide Answered, After;
    var n, t := |before|, before + [o];
    forall k | 0 <= k < |t|
      ensures AllDone(t[..k]) && Answered(c, Books(c, requests[..k], t[..k]), requests[k], t[k])
    {
      assert t[..k] == before[..k];
      if k == n { assert before[..k] == before; }
    }
    assert requests[..n + 1][..n] == requests[..n] && t[..n] == before;
  }

  lemma EmptyBooks(c: Config)
    ensures Books(c, [], []) == map[] && Records(c, {}, map[])
  {
  }

  // ---- A stale pointer given to realloc ----

  /** One chunk, no buffers, nothing protected, and the table on the first page. */
  ghost predicate Untouched(c: Config, a: Arena, base: nat) {
    && Good(c, a) && !c.protectFree
    && a.chunks == [Chunk(base, ChunkSize(c, 0))]
    && WithMode(a.slots, Allocated) == {}
    && WithMode(a.slots, InternalUse) == {Slot(base, base, c.page, c.page, InternalUse)}
  }

  /** A byte behind the table belongs to a free slot. */
  lemma FreeBehindTable(c: Config, a: Arena, base: nat, x: int) returns (i: nat)
    requires Untouched(c, a, base) && base + c.page <= x < base + ChunkSize(c, 0)
    ensures i < |a.slots| && a.slots[i].mode.Free? && a.slots[i].Covers(x)
  {
    assert a.chunks[0].Covers(x);
    assert Covered(a.slots, x);
    i :| 0 <= i < |a.slots| && a.slots[i].Covers(x);
    assert SlotOk(c, a.slots[i]);
    assert a.slots[i] in WithMode(a.slots, a.slots[i].mode);
  }

  /** Then there is exactly one free slot: all of the chunk behind the table. */
  lemma OneFreeSlot(c: Config, a: Arena, base: nat)
    requires Untouched(c, a, base)
    ensures forall i :: 0 <= i < |a.slots| && a.slots[i].mode.Free? ==> a.slots[i].internalAddress == base + c.page
    ensures exists i ::
              0 <= i < |a.slots| && a.slots[i].mode.Free? && a.slots[i].internalSize == ChunkSize(c, 0) - c.page
  {
    forall i | 0 <= i < |a.slots| && a.slots[i].mode.Free?
      ensures a.slots[i].internalAddress == base + c.page && a.slots[i].End() == base + ChunkSize(c, 0)
    {
      FreeSlotBounds(c, a, base, i);
    }
    var i := FreeBehindTable(c, a, base, base + c.page);
    assert a.slots[i].internalSize == ChunkSize(c, 0) - c.page;
  }

  lemma FreeSlotBounds(c: Config, a: Arena, base: nat, i: nat)
    requires c.Valid() && Untouched(c, a, base) && i < |a.slots| && a.slots[i].mode.Free?
    ensures a.slots[i].internalAddress == base + c.page && a.slots[i].End() == base + ChunkSize(c, 0)
  {
    hide Untouched, ChunkSize;
    FreeSlotWithin(c, a, base, i);
    NoSeam(c, a, base);
    SlotsApart(c, a, base);
    if a.slots[i].internalAddress > base + c.page {
      var j := FreeBehindTable(c, a, base, a.slots[i].internalAddress - 1);
      MeetAt(a.slots, j, i, a.slots[i].internalAddress);
    }
    if a.slots[i].End() < base + ChunkSize(c, 0) {
      var j := FreeBehindTable(c, a, base, a.slots[i].End());
      MeetAt(a.slots, i, j, a.slots[i].End());
    }
  }

  lemma SlotsApart(c: Config, a: Arena, base: nat)
    requires Untouched(c, a, base)
    ensures Separate(a.slots)
  {
  }

  /** Slots that cover neighbouring bytes, one of which is an end, meet there. */
  lemma MeetAt(s: seq<Slot>, p: nat, q: nat, x: int)
    requires Separate(s) && p < |s| && q < |s| && p != q && s[p].Covers(x - 1) && s[q].Covers(x)
    ensures s[p].End() == x == s[q].internalAddress
  {
    assert Apart(s[p], s[q]);
  }

  /** Two free slots never meet. */
  lemma NoSeam(c: Config, a: Arena, base: nat)
    requires c.page > 0 && Untouched(c, a, base)
    ensures forall p, q ::
              0 <= p < |a.slots| && 0 <= q < |a.slots| && a.slots[p].mode.Free? && a.slots[q].mode.Free? ==>
              a.slots[p].End() != a.slots[q].internalAddress
  {
    hide Untouched;
    forall p, q | 0 <= p < |a.slots| && 0 <= q < |a.slots| && a.slots[p].mode.Free? && a.slots[q].mode.Free?
      ensures a.slots[p].End() != a.slots[q].internalAddress
    {
      FreeSlotWithin(c, a, base, q);
      MergeableAtStart(c, a, base, p, q);
    }
  }

  lemma MergeableAtStart(c: Config, a: Arena, base: nat, p: nat, q: nat)
    requires Untouched(c, a, base) && p < |a.slots| && q < |a.slots|
    ensures Mergeable(a.slots[p], a.slots[q]) ==> a.slots[q].internalAddress == base
  {
    hide Tidy, Partition, Fenced, WithMode;
  }

  lemma FreeSlotWithin(c: Config, a: Arena, base: nat, i: nat)
    requires Untouched(c, a, base) && i < |a.slots| && a.slots[i].mode.Free?
    ensures a.slots[i].internalSize > 0
    ensures base + c.page <= a.slots[i].internalAddress && a.slots[i].End() <= base + ChunkSize(c, 0)
  {
    hide ChunkSize, Aligned, Canonical, Fenced;
    var s, b := a.slots, a.slots[i];
    assert SlotOk(c, b);
    assert s[i].Covers(b.internalAddress) && s[i].Covers(b.End() - 1);
    assert Covered(s, b.internalAddress) && Covered(s, b.End() - 1);
    var t := Slot(base, base, c.page, c.page, InternalUse);
    assert t in WithMode(s, InternalUse);
    var k :| 0 <= k < |s| && s[k] == t;
    assert Apart(s[i], s[k]);
  }

  lemma EmptySlotsLeft(c: Config, a: Arena, base: nat)
    requires Untouched(c, a, base) && a.unUsed >= 7
    ensures !TooFew(a.slots) && FirstEmpty(a.slots) >= 0
  {
    if FirstEmpty(a.slots) < 0 { AllInUse(a.slots); }
  }

  lemma {:induction false} AllInUse(s: seq<Slot>)
    requires Taken(s)
    ensures CountUnused(s) == 0
  {
    if s != [] { AllInUse(s[..|s| - 1]); }
  }

  /** In that state every buffer of `size` bytes that fits goes to the same place, without new memory. */
  lemma NextAddress(c: Config, a: Arena, base: nat, size: nat)
    requires Untouched(c, a, base) && a.unUsed >= 7 && InternalSize(c, c.alignment, size) <= ChunkSize(c, 0) - c.page
    ensures !TooFew(a.slots) && !NeedsMemory(c, PlanOf(a), c.alignment, size)
    ensures size > 0 ==> forall g :: Allot(c, PlanOf(a), c.alignment, size, g).answer ==
                           Done(NewSlot(c, base + c.page, c.alignment, size, false).userAddress)
  {
    hide Untouched, InternalSize, BestIndex, FirstEmpty, CountUnused;
    EmptySlotsLeft(c, a, base);
    FitIsBest(a.slots, InternalSize(c, c.alignment, size));
    OneFreeSlot(c, a, base);
    BestIndexIsBest(a.slots, InternalSize(c, c.alignment, size));
  }

  /**
   The run malloc, free, realloc of the freed pointer: realloc succeeds and returns that pointer, and the buffer it
   names is not live.
   */
  method StaleRealloc(cfg: Config, base: nat, size: nat)
    returns (al: Allocator, first: Outcome, second: Outcome, third: Outcome)
    requires cfg.Valid() && base > 0 && Aligned(cfg.page, base) && !cfg.protectFree && cfg.page / SLOT_BYTES >= 10
    requires size > 0 && InternalSize(cfg, cfg.alignment, size) <= ChunkSize(cfg, 0) - cfg.page
    ensures first.Done? && second.Done? && third == first && third.address != 0
    ensures al.Valid() && al.Buffers() == {}
  {
    hide Good, WithMode, NewSlot, InternalSize, ChunkSize, NeedsMemory, Freeable, Without, Hollow,
         Allot, Resize, CountUnused, Ready, GiveBack, FirstTable;
    al := new Allocator(cfg, base);
    assert Untouched(cfg, al.View(), base);
    NextAddress(cfg, al.View(), base, size);
    ghost var b, b', mid;
    first, b := al.Malloc(size);
    OnlyBuffer(al.slots, b);
    FilledBuffer(cfg, b.internalAddress, cfg.alignment, size);
    second := al.Free(first.address);
    assert Untouched(cfg, al.View(), base);
    NextAddress(cfg, al.View(), base, size);
    NoBuffer(al.slots, first.address);
    third, b', mid := al.Realloc(first.address, size);
    FilledBuffer(cfg, b'.internalAddress, cfg.alignment, size);
  }

  lemma OnlyBuffer(s: seq<Slot>, b: Slot)
    requires WithMode(s, Allocated) == {} + {b}
    ensures Live(s, b.userAddress) && Without(WithMode(s, Allocated), b.userAddress) == {}
  {
    assert b in WithMode(s, Allocated);
  }

  lemma NoBuffer(s: seq<Slot>, address: nat)
    requires WithMode(s, Allocated) == {}
    ensures !Freeable(s, address, false)
    ensures forall b: Slot :: b.userAddress == address ==> Without({} + {b}, address) == {}
  {
    hide Freeable;
    FreeableIsLive(s, address);
  }

  // ---- An empty buffer that free does not find ----

  predicate Taken(u: seq<Slot>) {
    forall i :: 0 <= i < |u| ==> u[i].InUse()
  }

  /** The entries in use after a buffer was cut from entry `k`. */
  function Cut(u: seq<Slot>, k: nat, b: Slot): seq<Slot>
    requires k < |u| && u[k].internalSize >= b.internalSize
  {
    if u[k].internalSize > b.internalSize
    then u[k := b] + [Slot(0, b.End(), 0, u[k].internalSize - b.internalSize, EfenceTable.Free)]
    else u[k := b]
  }

  lemma BestInTable(u: seq<Slot>, n: nat, size: nat, k: nat)
    requires |u| < n && Taken(u) && k < |u| && IsBest(u, size, k)
    ensures BestIndex(Table(u, n), size) == k && FirstEmpty(Table(u, n)) == |u| && Table(u, n)[k] == u[k]
  {
    hide BestIndex, FirstEmpty;
    OnlyOneIsBest(Table(u, n), size, k);
    assert !Table(u, n)[|u|].InUse();
  }

  lemma CutInTable(u: seq<Slot>, n: nat, k: nat, b: Slot)
    requires |u| < n && k < |u| && u[k].internalSize >= b.internalSize
    ensures Placed(Table(u, n), k, |u|, b) == Table(Cut(u, k, b), n)
  {
  }

  /** An allocation from a known entry of a known table. */
  method Take(al: Allocator, size: nat, ghost u: seq<Slot>, ghost n: nat, ghost k: nat) returns (o: Outcome)
    requires al.Valid() && |u| < n && Taken(u) && al.slots == Table(u, n) && al.unUsedSlots >= 7
    requires size > 0 || al.cfg.allowZero
    requires k < |u| && IsBest(u, InternalSize(al.cfg, al.cfg.alignment, size), k)
    modifies al
    ensures al.Valid() && al.unUsedSlots >= old(al.unUsedSlots) - 1
    ensures var b := NewSlot(al.cfg, u[k].internalAddress, al.cfg.alignment, size, false);
            o == Done(b.userAddress) && al.slots == Table(Cut(u, k, b), n)
  {
    hide Good, InternalSize, UserSize, Table, WithMode, Allot, NeedsMemory, CountUnused, NewSlot;
    CountKept(al.cfg, al.View());
    AllotInTable(al.cfg, al.Layout(), size, u, n, k);
    ghost var b;
    o, b := al.Malloc(size);
  }

  lemma AllotInTable(c: Config, p: Plan, size: nat, u: seq<Slot>, n: nat, k: nat)
    requires c.page > 0 && |u| < n && Taken(u) && p.slots == Table(u, n) && !TooFew(p.slots)
    requires size > 0 || c.allowZero
    requires k < |u| && IsBest(u, InternalSize(c, c.alignment, size), k)
    ensures !NeedsMemory(c, p, c.alignment, size)
    ensures var b := NewSlot(c, u[k].internalAddress, c.alignment, size, false);
            && u[k].internalSize >= b.internalSize
            && forall g :: Allot(c, p, c.alignment, size, g) ==
                           Turn(Done(b.userAddress), p.(slots := Table(Cut(u, k, b), n)), [])
  {
    hide BestIndex, FirstEmpty, InternalSize, UserSize, Table, HasFit, CountUnused;
    BestInTable(u, n, InternalSize(c, c.alignment, size), k);
    FitIsBest(p.slots, InternalSize(c, c.alignment, size));
    CutInTable(u, n, k, NewSlot(c, u[k].internalAddress, c.alignment, size, false));
  }

  /** The first request of a client is served from the chunk of start-up, whatever the system would grant. */
  lemma FirstIsServed(c: Config, base: nat, size: nat, grants: seq<nat>)
    requires c.Valid() && c.page / SLOT_BYTES >= 9
    requires size > 0 && InternalSize(c, c.alignment, size) <= ChunkSize(c, 0) - c.page
    ensures Foresee(c, StartPlan(c, base), [Malloc(size)], grants).outcomes ==
              [Done(NewSlot(c, base + c.page, c.alignment, size, false).userAddress)]
  {
    hide ChunkSize, InternalSize, Allot, CountUnused;
    var p, n := StartPlan(c, base), c.page / SLOT_BYTES;
    var u := p.slots[..2];
    assert p.slots == Table(u, n);
    CountAppendEmpty(u, n - 2);
    AllotInTable(c, p, size, u, n, 1);
    var t := TurnOf(c, p, Malloc(size), grants);
    assert Foresee(c, t.plan, [Malloc(size)][1..], grants[|t.made|..]).outcomes == [];
  }

  /** Giving back a known entry that touches no idle one. */
  method Drop(al: Allocator, ghost u: seq<Slot>, ghost n: nat, ghost k: nat, address: nat)
    requires al.Valid() && |u| <= n && al.slots == Table(u, n) && k < |u| && u[k].mode.Allocated?
    requires address == u[k].userAddress != 0 && forall i :: 0 <= i < k ==> u[i].userAddress != address
    requires Alone(u, k) && u[k].internalAddress > 0 && u[k].internalSize > 0
    modifies al
    ensures al.Valid() && al.unUsedSlots >= old(al.unUsedSlots)
    ensures al.slots == Table(u[k := Vacated(al.cfg, u[k])], n)
  {
    hide Good, Holder, WithMode, FreedTable, Alone;
    assert Holder(al.slots, address) == k by { assert al.slots[k] == u[k]; }
    FreedInTable(al.cfg, u, n, k);
    var o := al.Free(address);
  }

  lemma FreedInTable(c: Config, u: seq<Slot>, n: nat, k: nat)
    requires |u| <= n && k < |u| && Alone(u, k) && u[k].internalAddress > 0 && u[k].internalSize > 0
    ensures FreedTable(c, Table(u, n), k) == Table(u[k := Vacated(c, u[k])], n)
  {
    hide FreedTable;
    FreedAlone(c, Table(u, n), k);
  }

  function Small(page: nat, at: nat): Slot { Slot(at + page, at, 1, 2 * page, Allocated) }
  function Zero(page: nat, at: nat): Slot { Slot(at + page, at, 0, page, Allocated) }
  function Spare(at: nat, size: nat): Slot { Slot(0, at, 0, size, EfenceTable.Free) }

  lemma PageSizes(c: Config, at: nat)
    requires c.Valid() && c.below
    ensures InternalSize(c, c.alignment, 1) == 2 * c.page && InternalSize(c, c.alignment, 0) == c.page
    ensures NewSlot(c, at, c.alignment, 1, false) == Small(c.page, at)
    ensures NewSlot(c, at, c.alignment, 0, false) == Zero(c.page, at)
  {
    hide RoundUp, Aligned;
    AlignedPage(c.page);
    AlignedSum(c.page, c.page, c.page);
    RoundUpAligned(c.page, c.page);
    RoundUpAligned(c.page, 1 + c.page);
    AlignedDifference(c.page, RoundUp(c.page, 1 + c.page), c.page);
    AtLeastAPage(c.page, RoundUp(c.page, 1 + c.page) - c.page);
  }

  lemma AtLeastAPage(page: nat, x: nat)
    requires page > 0 && x > 0 && Aligned(page, x)
    ensures x >= page
  {
  }

  /** The entries in use along the run below: three small buffers, of which the first is given back. */
  function Three(page: nat, base: nat, rest: nat): seq<Slot> {
    [Slot(base, base, page, page, InternalUse), Small(page, base + page), Small(page, base + 3 * page),
     Small(page, base + 5 * page), Spare(base + 7 * page, rest)]
  }

  /** Two empty buffers in its place, and the second small one still there. */
  function Five(page: nat, base: nat, rest: nat): seq<Slot> {
    [Slot(base, base, page, page, InternalUse), Zero(page, base + page), Small(page, base + 3 * page),
     Small(page, base + 5 * page), Spare(base + 7 * page, rest), Zero(page, base + 2 * page)]
  }

  /** The last of the known entries is the only free one: a small buffer is cut from it. */
  method TakeSmall(al: Allocator, ghost w: seq<Slot>, ghost f: Slot, ghost n: nat) returns (o: Outcome)
    requires al.Valid() && al.cfg.below && |w| + 1 < n && al.slots == Table(w + [f], n) && al.unUsedSlots >= 7
    requires (forall i :: 0 <= i < |w| ==> w[i].InUse() && !w[i].mode.Free?)
    requires f.mode.Free? && f.internalSize > 2 * al.cfg.page
    modifies al
    ensures al.Valid() && al.unUsedSlots >= old(al.unUsedSlots) - 1
    ensures o == Done(f.internalAddress + al.cfg.page)
    ensures var p, at := al.cfg.page, f.internalAddress;
            al.slots == Table(w + [Small(p, at)] + [Spare(at + 2 * p, f.internalSize - 2 * p)], n)
  {
    hide Good, InternalSize, NewSlot, Table;
    var p := al.cfg.page;
    PageSizes(al.cfg, f.internalAddress);
    o := Take(al, 1, w + [f], n, |w|);
    assert (w + [f])[|w| := Small(p, f.internalAddress)] == w + [Small(p, f.internalAddress)];
  }

  method ThreeSmall(cfg: Config, base: nat) returns (al: Allocator, a: Outcome, b: Outcome, d: Outcome)
    requires cfg.Valid() && cfg.below && base > 0 && Aligned(cfg.page, base)
    requires cfg.page / SLOT_BYTES >= 13 && 10 * cfg.page <= MEMORY_CREATION_SIZE
    ensures fresh(al) && al.Valid() && al.cfg == cfg && al.unUsedSlots >= cfg.page / SLOT_BYTES - 5
    ensures a == Done(base + 2 * cfg.page) && b == Done(base + 4 * cfg.page) && d.Done?
    ensures al.slots == Table(Three(cfg.page, base, ChunkSize(cfg, 0) - 7 * cfg.page), cfg.page / SLOT_BYTES)
  {
    hide Good, ChunkSize, Aligned, Table, WithMode, FirstTable;
    var p := cfg.page;
    ghost var n, all := p / SLOT_BYTES, ChunkSize(cfg, 0);
    al := new Allocator(cfg, base);
    ghost var w := [Slot(base, base, p, p, InternalUse)];
    StartTable(cfg, base, al.slots);
    a := TakeSmall(al, w, Slot(base + p, base + p, all - p, all - p, EfenceTable.Free), n);
    w := w + [Small(p, base + p)];
    b := TakeSmall(al, w, Spare(base + 3 * p, all - 3 * p), n);
    w := w + [Small(p, base + 3 * p)];
    d := TakeSmall(al, w, Spare(base + 5 * p, all - 5 * p), n);
    assert w + [Small(p, base + 5 * p)] + [Spare(base + 7 * p, all - 7 * p)] == Three(p, base, all - 7 * p);
  }

  /** The requests of that run, by the addresses the answers give. */
  function LosingScript(o: seq<Outcome>): (r: seq<Request>)
    requires |o| == 8 && AllDone(o[..7])
    ensures |r| == 8 && r[7].Free?
  {
    assert o[..7][0].Done? && o[..7][1].Done? && o[..7][5].Done?;
    [Malloc(1), Malloc(1), Malloc(1), Request.Free(o[0].address), Malloc(0), Malloc(0), Request.Free(o[1].address),
     Request.Free(o[5].address)]
  }

  lemma StillOnTheBooks(c: Config, o: seq<Outcome>)
    requires |o| == 8 && AllDone(o[..7]) && o[5].Done? && o[1].Done? && o[1].address != o[5].address
    ensures o[5].address in Books(c, LosingScript(o)[..7], o[..7])
  {
    hide Books;
    var q := LosingScript(o);
    assert q[..7][..6] == q[..6] && o[..7][..6] == o[..6];
    BooksNext(c, q[..6], o[..6], q[5], o[5]);
    BooksNext(c, q[..7], o[..7], q[6], o[6]);
  }

  lemma BooksNext(c: Config, requests: seq<Request>, outcomes: seq<Outcome>, q: Request, o: Outcome)
    requires |requests| == |outcomes| > 0 && AllDone(outcomes)
    requires q == requests[|requests| - 1] && o == outcomes[|outcomes| - 1]
    ensures var n := |requests| - 1;
            && AllDone(outcomes[..n])
            && Books(c, requests, outcomes) == After(c, Books(c, requests[..n], outcomes[..n]), q, o)
  {
  }

  /**
   A live buffer that cannot be given back: three small buffers, the first one freed, two empty ones in its place,
   the second small one freed, and then free refuses the second empty buffer, which was never given back.
   */
  method LostBuffer(cfg: Config, base: nat) returns (outcomes: seq<Outcome>)
    requires cfg.Valid() && cfg.below && cfg.allowZero && !cfg.protectFree && base > 0 && Aligned(cfg.page, base)
    requires cfg.page / SLOT_BYTES >= 13 && 10 * cfg.page <= MEMORY_CREATION_SIZE
    ensures |outcomes| == 8 && AllDone(outcomes[..7]) && outcomes[7].Abort?
    ensures var requests := LosingScript(outcomes);
            requests[7].address in Books(cfg, requests[..7], outcomes[..7])
  {
    hide Good, ChunkSize, Aligned, Table, Three, Five, Freeable, Vacated, Alone;
    var p := cfg.page;
    ghost var n, rest := p / SLOT_BYTES, ChunkSize(cfg, 0) - 7 * p;
    var al, a, b, d := ThreeSmall(cfg, base);
    FirstOfThree(p, base, rest);
    Drop(al, Three(p, base, rest), n, 1, a.address);
    var e, f := TwoEmpty(al, base, rest, n);
    SecondOfFive(p, base, rest);
    Drop(al, Five(p, base, rest), n, 2, b.address);
    HiddenBehind(cfg, base, rest, n);
    var g := al.Free(f.address);
    outcomes := [a, b, d, Done(0), e, f, Done(0), g];
    StillOnTheBooks(cfg, outcomes);
  }

  /** The two empty buffers: from the first small one's place, and from what is left of that. */
  method TwoEmpty(al: Allocator, base: nat, ghost rest: nat, ghost n: nat) returns (e: Outcome, f: Outcome)
    requires al.Valid() && al.cfg.below && al.cfg.allowZero && !al.cfg.protectFree && al.unUsedSlots >= 8 && n >= 7
    requires rest >= 2 * al.cfg.page
    requires var p := al.cfg.page;
             al.slots == Table(Three(p, base, rest)[1 := Vacated(al.cfg, Small(p, base + p))], n)
    modifies al
    ensures al.Valid() && e.Done? && f == Done(base + 3 * al.cfg.page)
    ensures al.slots == Table(Five(al.cfg.page, base, rest), n)
  {
    hide Good, Table, InternalSize, NewSlot;
    var p := al.cfg.page;
    PageSizes(al.cfg, base + p);
    PageSizes(al.cfg, base + 2 * p);
    ghost var u := Three(p, base, rest)[1 := Vacated(al.cfg, Small(p, base + p))];
    e := Take(al, 0, u, n, 1);
    u := u[1 := Zero(p, base + p)] + [Spare(base + 2 * p, p)];
    f := Take(al, 0, u, n, 5);
    assert u[5 := Zero(p, base + 2 * p)] == Five(p, base, rest);
  }

  lemma FirstOfThree(page: nat, base: nat, rest: nat)
    requires page > 0 && base > 0
    ensures var u := Three(page, base, rest);
            && |u| == 5 && u[1] == Small(page, base + page) && Alone(u, 1) && u[0].userAddress != u[1].userAddress
  {
  }

  lemma SecondOfFive(page: nat, base: nat, rest: nat)
    requires page > 0 && base > 0
    ensures var u := Five(page, base, rest);
            && |u| == 6 && u[2] == Small(page, base + 3 * page) && Alone(u, 2)
            && u[0].userAddress != u[2].userAddress && u[1].userAddress != u[2].userAddress
  {
  }

  lemma HiddenBehind(c: Config, base: nat, rest: nat, n: nat)
    requires n >= 6 && !c.protectFree && base > 0 && c.page > 0
    ensures var u := Five(c.page, base, rest);
            !Freeable(Table(u[2 := Vacated(c, u[2])], n), base + 3 * c.page, false)
  {
    hide Holder;
    var u := Five(c.page, base, rest);
    var s := Table(u[2 := Vacated(c, u[2])], n);
    assert s[2].userAddress == base + 3 * c.page && s[2].mode.Free?;
    assert Holder(s, base + 3 * c.page) == 2;
  }

  // ---- Alignment ----

  /** Wherever a buffer of this size lands, its address is a multiple of the alignment. */
  ghost predicate AlwaysAligned(c: Config, alignment: nat, size: nat)
    requires c.page > 0 && alignment > 0
  {
    forall start: nat :: start > 0 && Aligned(c.page, start) ==>
      Aligned(alignment, NewSlot(c, start, alignment, size, false).userAddress)
  }

  /** How far behind the start of its slot a buffer begins. */
  function Lead(c: Config, alignment: nat, size: nat): nat
    requires c.page > 0
  {
    if c.below then c.page else InternalSize(c, alignment, size) - c.page - UserSize(c, alignment, size)
  }

  lemma StartsAt(c: Config, start: nat, alignment: nat, size: nat)
    requires c.page > 0
    ensures NewSlot(c, start, alignment, size, false).userAddress == start + Lead(c, alignment, size)
  {
    hide InternalSize, UserSize;
  }

  /** A client may rely on the alignment it asked for if and only if that alignment divides the page size. */
  lemma AlignmentHonoured(c: Config, alignment: nat, size: nat)
    requires c.page > 0 && alignment > 0
    ensures AlwaysAligned(c, alignment, size) <==> Aligned(alignment, c.page)
  {
    hide Aligned, NewSlot, Lead;
    AlignedPage(c.page);
    var lead := Lead(c, alignment, size);
    if AlwaysAligned(c, alignment, size) {
      AlignedSum(c.page, c.page, c.page);
      StartsAt(c, c.page, alignment, size);
      StartsAt(c, c.page + c.page, alignment, size);
      AlignedDifference(alignment, c.page + c.page + lead, c.page + lead);
    }
    if Aligned(alignment, c.page) {
      LeadAligned(c, alignment, size);
      forall start: nat | start > 0 && Aligned(c.page, start)
        ensures Aligned(alignment, NewSlot(c, start, alignment, size, false).userAddress)
      {
        StartsAt(c, start, alignment, size);
        PageMultiple(c.page, alignment, start);
        AlignedSum(alignment, start, lead);
      }
    }
  }

  lemma PageMultiple(page: nat, unit: nat, x: nat)
    requires page > 0 && unit > 0 && Aligned(unit, page) && Aligned(page, x)
    ensures Aligned(unit, x)
  {
    hide Aligned;
    AlignedIsMultiple(unit, page);
    AlignedToDivisor(page, unit, x);
    AlignedIsMultiple(unit, x);
  }

  lemma LeadAligned(c: Config, alignment: nat, size: nat)
    requires c.page > 0 && alignment > 0 && Aligned(alignment, c.page)
    ensures Aligned(alignment, Lead(c, alignment, size))
  {
    hide Aligned, UserSize, InternalSize;
    if !c.below {
      var user, whole := UserSize(c, alignment, size), InternalSize(c, alignment, size);
      WholePages(c, alignment, size);
      AlignedPage(c.page);
      AlignedDifference(c.page, whole, c.page);
      UserSizeAligned(c, alignment, size);
      PageMultiple(c.page, alignment, whole - c.page);
      AlignedDifference(alignment, whole - c.page, user);
    }
  }

  lemma UserSizeAligned(c: Config, alignment: nat, size: nat)
    requires !c.below && alignment > 0
    ensures Aligned(alignment, UserSize(c, alignment, size))
  {
    hide Aligned, RoundUp;
    RoundUpAligned(alignment, size);
    if alignment == 1 { AlignedIsMultiple(1, size); }
  }

  // ---- 64-bit sizes ----

  /** Rounding and adding as the original does them, modulo 2^64. */
  function WrappedRound(unit: nat, x: nat): (r: nat)
    requires unit > 0 && x < SIZE_T
    ensures r < SIZE_T
  {
    if x % unit == 0 then x else (x + (unit - x % unit)) % SIZE_T
  }

  function WrappedInternalSize(c: Config, alignment: nat, size: nat): (r: nat)
    requires c.page > 0 && size < SIZE_T
    ensures r < SIZE_T
  {
    var user := if !c.below && alignment > 1 then WrappedRound(alignment, size) else size;
    WrappedRound(c.page, (user + c.page) % SIZE_T)
  }

  lemma RoundIsExact(unit: nat, x: nat)
    requires unit > 0 && x < SIZE_T && RoundUp(unit, x) < SIZE_T
    ensures WrappedRound(unit, x) == RoundUp(unit, x)
  {
  }

  /** The wrapped size is the real one just when the real one is representable. */
  lemma SizeIsExact(c: Config, alignment: nat, size: nat)
    requires c.page > 0 && size < SIZE_T
    ensures WrappedInternalSize(c, alignment, size) == InternalSize(c, alignment, size) <==>
            InternalSize(c, alignment, size) < SIZE_T
  {
    hide RoundUp, WrappedRound;
    if InternalSize(c, alignment, size) < SIZE_T {
      if !c.below && alignment > 1 { RoundIsExact(alignment, size); }
      RoundIsExact(c.page, UserSize(c, alignment, size) + c.page);
    }
  }
}
