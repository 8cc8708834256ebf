/** Whole programs over a family of lists: every run refines the same run on sequences. */
module ListRun {
  import opened ListHead

  /** One call on a family of lists, which are named by their position. */
  datatype Command =
    | AddFirst(entry: Node, to: nat)         // list_add
    | AddLast(entry: Node, to: nat)          // list_add_tail
    | Delete(entry: Node)                    // list_del
    | DeleteInit(entry: Node)                // list_del_init
    | Exchange(entry: Node, other: Node)        // list_replace
    | ExchangeInit(entry: Node, other: Node)    // list_replace_init
    | ExchangeHead(at: nat, other: Node)     // list_replace of a head
    | ExchangeHeadInit(at: nat, other: Node) // list_replace_init of a head
    | MoveFirst(entry: Node, to: nat)        // list_move
    | MoveLast(entry: Node, to: nat)         // list_move_tail
    | Rotate(at: nat)                        // list_rotate_left
    | Cut(from: nat, entry: Node, to: nat)   // list_cut_position
    | JoinFirst(from: nat, to: nat)          // list_splice
    | JoinLast(from: nat, to: nat)           // list_splice_tail
    | JoinFirstInit(from: nat, to: nat)      // list_splice_init
    | JoinLastInit(from: nat, to: nat)       // list_splice_tail_init
    | Reset(at: nat)                         // INIT_LIST_HEAD

  /**
   The contents of the lists, the heads that were spliced away and not set up again, and the nodes that left a list
   with an `_init` operation and were not used again.
   */
  datatype World = World(lists: seq<seq<Node>>, stale: set<nat>, alone: set<Node>)

  // ---- The same commands on sequences ----

  function Drop(s: seq<Node>, e: Node): seq<Node> {
    if s == [] then [] else (if s[0] == e then [] else [s[0]]) + Drop(s[1..], e)
  }

  function DropAll(lists: seq<seq<Node>>, e: Node): (r: seq<seq<Node>>)
    ensures |r| == |lists| && forall i :: 0 <= i < |lists| ==> r[i] == Drop(lists[i], e)
  {
    seq(|lists|, i requires 0 <= i < |lists| => Drop(lists[i], e))
  }

  /** The entries up to and including the first occurrence of `e`. */
  function UpTo(s: seq<Node>, e: Node): (r: seq<Node>)
    ensures r <= s
  {
    if s == [] then [] else if s[0] == e then [e] else [s[0]] + UpTo(s[1..], e)
  }

  function Subst(s: seq<Node>, e: Node, n: Node): seq<Node> {
    if s == [] then [] else [if s[0] == e then n else s[0]] + Subst(s[1..], e, n)
  }

  function SubstAll(lists: seq<seq<Node>>, e: Node, n: Node): (r: seq<seq<Node>>)
    ensures |r| == |lists| && forall i :: 0 <= i < |lists| ==> r[i] == Subst(lists[i], e, n)
  {
    seq(|lists|, i requires 0 <= i < |lists| => Subst(lists[i], e, n))
  }

  /** What a cut leaves in the list cut from and in the list cut to. */
  function CutFrom(h: Node, xs: seq<Node>, e: Node): seq<Node> {
    if e == h then xs else xs[|UpTo(xs, e)|..]
  }

  function CutTo(h: Node, xs: seq<Node>, e: Node, ys: seq<Node>): seq<Node> {
    if xs == [] then ys else if e == h then [] else xs[..|UpTo(xs, e)|]
  }

  /** A head is stale once its entries were spliced away. */
  function Spent(lists: seq<seq<Node>>, stale: set<nat>, i: nat): set<nat>
    requires i < |lists|
  {
    if lists[i] == [] then stale else stale + {i}
  }

  function Apply(heads: seq<Node>, w: World, c: Command): (r: World)
    requires |heads| == |w.lists| && Enabled(heads, w, c)
    ensures |r.lists| == |w.lists|
  {
    var l := w.lists;
    match c
    case AddFirst(e, i) => w.(lists := l[i := [e] + l[i]], alone := w.alone - {e})
    case AddLast(e, i) => w.(lists := l[i := l[i] + [e]], alone := w.alone - {e})
    case Delete(e) => w.(lists := DropAll(l, e))
    case DeleteInit(e) => w.(lists := DropAll(l, e), alone := w.alone + {e})
    case Exchange(e, n) => w.(lists := SubstAll(l, e, n), alone := w.alone - {n})
    case ExchangeInit(e, n) => w.(lists := SubstAll(l, e, n), alone := w.alone - {n} + {e})
    case ExchangeHead(_, n) => w.(alone := w.alone - {n})
    case ExchangeHeadInit(i, n) => w.(alone := w.alone - {n} + {heads[i]})
    case MoveFirst(e, i) => var d := DropAll(l, e); w.(lists := d[i := [e] + d[i]])
    case MoveLast(e, i) => var d := DropAll(l, e); w.(lists := d[i := d[i] + [e]])
    case Rotate(i) => w.(lists := if l[i] == [] then l else l[i := l[i][1..] + [l[i][0]]])
    case Cut(i, e, j) =>
      w.(lists := l[j := CutTo(heads[i], l[i], e, l[j])][i := CutFrom(heads[i], l[i], e)],
         stale := if l[i] == [] then w.stale else w.stale - {j})
    case JoinFirst(i, j) => w.(lists := l[j := l[i] + l[j]][i := []], stale := Spent(l, w.stale, i))
    case JoinLast(i, j) => w.(lists := l[j := l[j] + l[i]][i := []], stale := Spent(l, w.stale, i))
    case JoinFirstInit(i, j) => w.(lists := l[j := l[i] + l[j]][i := []])
    case JoinLastInit(i, j) => w.(lists := l[j := l[j] + l[i]][i := []])
    case Reset(i) => w.(lists := l[i := []], stale := w.stale - {i})
  }

  /** The heads after a command: only the replacement of a head changes them. */
  function HeadsAfter(heads: seq<Node>, w: World, c: Command): (r: seq<Node>)
    requires |heads| == |w.lists| && Enabled(heads, w, c)
    ensures |r| == |heads|
  {
    match c
    case ExchangeHead(i, n) => heads[i := n]
    case ExchangeHeadInit(i, n) => heads[i := n]
    case _ => heads
  }

  predicate Listed(lists: seq<seq<Node>>, e: Node) {
    exists i :: 0 <= i < |lists| && e in lists[i]
  }

  predicate Loose(heads: seq<Node>, lists: seq<seq<Node>>, e: Node) {
    e !in heads && !Listed(lists, e)
  }

  /** A head that can be used as a list. */
  predicate Usable(w: World, i: nat) {
    i < |w.lists| && i !in w.stale
  }

  /**
   What the callers must see to: new entries are in no list, moved ones are in one, a cut names an entry of its
   list, and a head that was spliced away is set up again, or cut into, before it is used as a list.
   */
  predicate Enabled(heads: seq<Node>, w: World, c: Command)
    requires |heads| == |w.lists|
  {
    match c
    case AddFirst(e, i) => Usable(w, i) && Loose(heads, w.lists, e)
    case AddLast(e, i) => Usable(w, i) && Loose(heads, w.lists, e)
    case Delete(e) => Listed(w.lists, e)
    case DeleteInit(e) => Listed(w.lists, e)
    case Exchange(e, n) => Listed(w.lists, e) && Loose(heads, w.lists, n)
    case ExchangeInit(e, n) => Listed(w.lists, e) && Loose(heads, w.lists, n)
    case ExchangeHead(i, n) => Usable(w, i) && Loose(heads, w.lists, n)
    case ExchangeHeadInit(i, n) => Usable(w, i) && Loose(heads, w.lists, n)
    case MoveFirst(e, i) => Usable(w, i) && Listed(w.lists, e)
    case MoveLast(e, i) => Usable(w, i) && Listed(w.lists, e)
    case Rotate(i) => Usable(w, i)
    case Cut(i, e, j) => Usable(w, i) && j < |w.lists| && i != j && e in [heads[i]] + w.lists[i]
    case JoinFirst(i, j) => Usable(w, i) && Usable(w, j) && i != j
    case JoinLast(i, j) => Usable(w, i) && Usable(w, j) && i != j
    case JoinFirstInit(i, j) => Usable(w, i) && Usable(w, j) && i != j
    case JoinLastInit(i, j) => Usable(w, i) && Usable(w, j) && i != j
    case Reset(i) => i < |w.lists|
  }

  // ---- A family of lists in memory ----

  ghost predicate Within(nodes: set<Node>, heads: seq<Node>, lists: seq<seq<Node>>) {
    && |heads| == |lists|
    && (forall i :: 0 <= i < |heads| ==> heads[i] in nodes)
    && (forall i, j :: 0 <= i < |lists| && 0 <= j < |lists[i]| ==> lists[i][j] in nodes)
  }

  /** No node belongs to two lists. */
  predicate Disjoint(heads: seq<Node>, lists: seq<seq<Node>>)
    requires |heads| == |lists|
  {
    forall i, j :: 0 <= i < |lists| && 0 <= j < |lists| && i != j ==>
    Apart([heads[i]] + lists[i], [heads[j]] + lists[j])
  }

  /** Every head has its list, but for the stale ones, which were spliced away and not set up again. */
  ghost predicate Family(nodes: set<Node>, heads: seq<Node>, lists: seq<seq<Node>>, stale: set<nat>)
    reads nodes
  {
    && Within(nodes, heads, lists)
    && Disjoint(heads, lists)
    && forall i :: 0 <= i < |lists| ==> if i in stale then lists[i] == [] else IsList(heads[i], lists[i])
  }

  /** Every node of every list but `i` and `j` is none of the nodes of these two. */
  lemma Others(heads: seq<Node>, lists: seq<seq<Node>>, i: nat, j: nat)
    requires |heads| == |lists| && Disjoint(heads, lists) && i < |lists| && j < |lists|
    ensures forall m :: 0 <= m < |lists| && m != i && m != j ==>
              heads[m] !in [heads[i]] + lists[i] && heads[m] !in [heads[j]] + lists[j]
    ensures forall m, k :: 0 <= m < |lists| && m != i && m != j && 0 <= k < |lists[m]| ==>
              lists[m][k] !in [heads[i]] + lists[i] && lists[m][k] !in [heads[j]] + lists[j]
  {
    forall m | 0 <= m < |lists| && m != i && m != j
      ensures forall n :: n in [heads[m]] + lists[m] ==> n !in [heads[i]] + lists[i] && n !in [heads[j]] + lists[j]
    {
      assert Apart([heads[m]] + lists[m], [heads[i]] + lists[i]);
      assert Apart([heads[m]] + lists[m], [heads[j]] + lists[j]);
    }
    forall m | 0 <= m < |lists| && m != i && m != j
      ensures heads[m] !in [heads[i]] + lists[i] && heads[m] !in [heads[j]] + lists[j]
    {
      assert heads[m] in [heads[m]] + lists[m];
    }
    forall m, k | 0 <= m < |lists| && m != i && m != j && 0 <= k < |lists[m]|
      ensures lists[m][k] !in [heads[i]] + lists[i] && lists[m][k] !in [heads[j]] + lists[j]
    {
      assert lists[m][k] in [heads[m]] + lists[m];
    }
  }

  /**
   * Replacing one list by a permutation of it, or by a part of it, or adding a loose node, keeps the lists
   * disjoint.
   */
  lemma DisjointUpdate(heads: seq<Node>, lists: seq<seq<Node>>, i: nat, xs: seq<Node>)
    requires |heads| == |lists| && Disjoint(heads, lists) && i < |lists|
    requires forall n :: n in xs ==> n in lists[i] || (n !in heads && !Listed(lists, n))
    ensures Disjoint(heads, lists[i := xs])
  {
    var r := lists[i := xs];
    forall a, b | 0 <= a < |r| && 0 <= b < |r| && a != b ensures Apart([heads[a]] + r[a], [heads[b]] + r[b]) {
      assert Apart([heads[a]] + lists[a], [heads[b]] + lists[b]);
      assert heads[a] in [heads[a]] + lists[a] && heads[b] in [heads[b]] + lists[b];
      assert forall n :: n in lists[a] ==> n in [heads[a]] + lists[a];
      assert forall n :: n in lists[b] ==> n in [heads[b]] + lists[b];
    }
  }

  method RunAddFirst(heads: seq<Node>, e: Node, i: nat,
      ghost nodes: set<Node>, ghost lists: seq<seq<Node>>, ghost stale: set<nat>)
    requires Family(nodes, heads, lists, stale) && i < |heads| && i !in stale && e in nodes && e !in heads
    requires !Listed(lists, e)
    modifies nodes
    ensures Family(nodes, heads, lists[i := [e] + lists[i]], stale)
    ensures forall n :: n in nodes && Loose(heads, lists, n) && n != e && old(IsList(n, [])) ==> IsList(n, [])
  {
    hide IsList, Disjoint;
    Others(heads, lists, i, i);
    Neighbours(heads[i], lists[i]);
    DisjointUpdate(heads, lists, i, [e] + lists[i]);
    Add(e, heads[i], lists[i]);
  }

  method RunAddLast(heads: seq<Node>, e: Node, i: nat,
      ghost nodes: set<Node>, ghost lists: seq<seq<Node>>, ghost stale: set<nat>)
    requires Family(nodes, heads, lists, stale) && i < |heads| && i !in stale && e in nodes && e !in heads
    requires !Listed(lists, e)
    modifies nodes
    ensures Family(nodes, heads, lists[i := lists[i] + [e]], stale)
    ensures forall n :: n in nodes && Loose(heads, lists, n) && n != e && old(IsList(n, [])) ==> IsList(n, [])
  {
    hide IsList, Disjoint;
    Others(heads, lists, i, i);
    Neighbours(heads[i], lists[i]);
    DisjointUpdate(heads, lists, i, lists[i] + [e]);
    AddTail(e, heads[i], lists[i]);
  }

  method RunRotate(heads: seq<Node>, i: nat, ghost nodes: set<Node>, ghost lists: seq<seq<Node>>, ghost stale: set<nat>)
    requires Family(nodes, heads, lists, stale) && i < |heads| && i !in stale
    modifies nodes
    ensures Family(nodes, heads, if lists[i] == [] then lists else lists[i := lists[i][1..] + [lists[i][0]]], stale)
    ensures forall n :: n in nodes && Loose(heads, lists, n) && old(IsList(n, [])) ==> IsList(n, [])
  {
    hide IsList, Disjoint;
    ghost var xs := lists[i];
    Others(heads, lists, i, i);
    if xs != [] { DisjointUpdate(heads, lists, i, xs[1..] + [xs[0]]); }
    RotateLeft(heads[i], xs);
  }

  /** Where an entry stands: in list `i`, between `a` and `b`. */
  ghost predicate Located(heads: seq<Node>, lists: seq<seq<Node>>, e: Node, i: nat, a: seq<Node>, b: seq<Node>)
    requires |heads| == |lists|
  {
    && i < |lists| && lists[i] == a + [e] + b && e !in a + b && e != heads[i]
    && DropAll(lists, e) == lists[i := a + b]
  }

  lemma {:induction false} DropKeeps(s: seq<Node>, e: Node)
    requires e !in s
    ensures Drop(s, e) == s
  {
    if s != [] { DropKeeps(s[1..], e); }
  }

  lemma {:induction false} DropFinds(a: seq<Node>, e: Node, b: seq<Node>)
    requires e !in a && e !in b
    ensures Drop(a + [e] + b, e) == a + b
  {
    var s := a + [e] + b;
    if a == [] {
      assert s[1..] == b;
      DropKeeps(b, e);
    } else {
      assert s[1..] == a[1..] + [e] + b;
      DropFinds(a[1..], e, b);
      assert a + b == [a[0]] + (a[1..] + b);
    }
  }

  lemma Locate(nodes: set<Node>, heads: seq<Node>, lists: seq<seq<Node>>, stale: set<nat>, e: Node)
    returns (i: nat, a: seq<Node>, b: seq<Node>)
    requires Family(nodes, heads, lists, stale) && Listed(lists, e)
    ensures Located(heads, lists, e, i, a, b)
  {
    hide IsList, Disjoint;
    i :| 0 <= i < |lists| && e in lists[i];
    var k :| 0 <= k < |lists[i]| && lists[i][k] == e;
    var xs := lists[i];
    a, b := xs[..k], xs[k + 1..];
    assert xs == a + [e] + b;
    Neighbours(heads[i], xs);
    Split(a, e, b);
    DropFinds(a, e, b);
    Others(heads, lists, i, i);
    forall m | 0 <= m < |lists| ensures DropAll(lists, e)[m] == lists[i := a + b][m] {
      if m != i { OnlyHere(heads, lists, e, i, m); DropKeeps(lists[m], e); }
    }
  }

  lemma Split(a: seq<Node>, e: Node, b: seq<Node>)
    requires Distinct(a + [e] + b)
    ensures e !in a && e !in b
  {
    DistinctConcat(a + [e], b);
    DistinctConcat(a, [e]);
  }

  lemma OnlyHere(heads: seq<Node>, lists: seq<seq<Node>>, e: Node, i: nat, m: nat)
    requires |heads| == |lists| && Disjoint(heads, lists) && i < |lists| && m < |lists| && m != i && e in lists[i]
    ensures e !in lists[m] && e != heads[m]
  {
    assert Apart([heads[i]] + lists[i], [heads[m]] + lists[m]);
    assert e in [heads[i]] + lists[i];
  }

  /** list_del or list_del_init of an entry, seen from the head of its list. */
  method RemoveEntry(ghost h: Node, e: Node, ghost a: seq<Node>, ghost b: seq<Node>, init: bool)
    requires IsList(h, a + [e] + b)
    modifies h, a, e, b
    ensures IsList(h, a + b) && (init ==> IsList(e, []))
  {
    hide IsList;
    ghost var ys := b + [h] + a;
    Turned(h, a, e, b);
    if init { DelInit(e, ys); } else { Del(e, ys); }
    assert IsList(ys[|b|], ys[|b| + 1..] + ys[..|b|]);
  }

  /** The ring of an entry, from the entry and from the head of its list. */
  lemma Turned(h: Node, a: seq<Node>, e: Node, b: seq<Node>)
    requires IsList(h, a + [e] + b)
    ensures var ys := b + [h] + a;
            && IsList(e, ys) && e != h && e !in a && e !in b && h !in a && h !in b
            && e.next != null && e.prev != null && e.next in [e] + ys && e.prev in [e] + ys
            && ys[|b|] == h && ys[|b| + 1..] + ys[..|b|] == a + b
  {
    hide IsList, Distinct;
    Turn(h, a, e, b);
    Neighbours(e, b + [h] + a);
    Neighbours(h, a + [e] + b);
    assert e in a + [e] + b && h in b + [h] + a;
    assert forall n :: n in a ==> n in b + [h] + a && n in a + [e] + b;
    assert forall n :: n in b ==> n in b + [h] + a && n in a + [e] + b;
  }

  method RunRemove(heads: seq<Node>, e: Node, init: bool,
      ghost nodes: set<Node>, ghost lists: seq<seq<Node>>, ghost stale: set<nat>)
    requires Family(nodes, heads, lists, stale) && Listed(lists, e)
    modifies nodes
    ensures Family(nodes, heads, DropAll(lists, e), stale)
    ensures forall n :: n in nodes && Loose(heads, lists, n) && old(IsList(n, [])) ==> IsList(n, [])
    ensures init ==> IsList(e, [])
  {
    hide IsList, Disjoint, DropAll;
    ghost var i, a, b := Locate(nodes, heads, lists, stale, e);
    Others(heads, lists, i, i);
    DisjointUpdate(heads, lists, i, a + b);
    InList(nodes, heads, lists, e, i, a, b);
    RemoveEntry(heads[i], e, a, b, init);
  }

  lemma InList(nodes: set<Node>, heads: seq<Node>, lists: seq<seq<Node>>, e: Node, i: nat, a: seq<Node>, b: seq<Node>)
    requires Within(nodes, heads, lists) && Located(heads, lists, e, i, a, b)
    ensures e in nodes && e in lists[i] && heads[i] in nodes
    ensures forall k :: 0 <= k < |a| ==> a[k] in nodes && a[k] in lists[i]
    ensures forall k :: 0 <= k < |b| ==> b[k] in nodes && b[k] in lists[i]
  {
    hide DropAll;
    var xs := lists[i];
    assert xs[|a|] == e && e in xs;
    assert forall k :: 0 <= k < |a| ==> a[k] == xs[k];
    assert forall k :: 0 <= k < |b| ==> b[k] == xs[|a| + 1 + k];
  }

  ghost predicate CanEnter(e: Node, head: Node, h: Node, a: seq<Node>, b: seq<Node>, xs: seq<Node>)
    reads h, a, e, b, head, xs
  {
    && IsList(h, a + [e] + b)
    && if head == h then xs == a + b else IsList(head, xs) && Apart([head] + xs, [h] + (a + [e] + b))
  }

  lemma Leaves(e: Node, head: Node, h: Node, a: seq<Node>, b: seq<Node>, xs: seq<Node>)
    requires CanEnter(e, head, h, a, b, xs)
    ensures var ys := b + [h] + a; CanMove(e, ys, head, xs) && (head != h ==> head !in ys)
  {
    hide IsList;
    var ys := b + [h] + a;
    Turn(h, a, e, b);
    Neighbours(h, a + [e] + b);
    assert e in a + [e] + b;
    assert ys[|b|] == h && ys[|b| + 1..] + ys[..|b|] == a + b;
    if head != h {
      assert forall n :: n in [e] + ys ==> n in [h] + (a + [e] + b);
      assert head in [head] + xs;
    }
  }

  lemma MoveReady(nodes: set<Node>, heads: seq<Node>, lists: seq<seq<Node>>, stale: set<nat>, e: Node, i: nat,
      a: seq<Node>, b: seq<Node>, to: nat)
    requires Family(nodes, heads, lists, stale) && Located(heads, lists, e, i, a, b) && to < |heads| && to !in stale
    ensures Disjoint(heads, DropAll(lists, e)) && e !in heads && !Listed(DropAll(lists, e), e)
    ensures CanEnter(e, heads[to], heads[i], a, b, DropAll(lists, e)[to]) && (heads[to] == heads[i] <==> to == i)
  {
    hide IsList, Disjoint, DropAll;
    var d := DropAll(lists, e);
    assert lists[i][|a|] == e && e in lists[i];
    DisjointUpdate(heads, lists, i, a + b);
    forall m | 0 <= m < |heads| && m != i ensures e !in lists[m] && e != heads[m] && heads[m] != heads[i] {
      OnlyHere(heads, lists, e, i, m);
      HeadsDiffer(heads, lists, i, m);
    }
    if to != i { TwoApart(heads, lists, to, i); }
  }

  lemma HeadsDiffer(heads: seq<Node>, lists: seq<seq<Node>>, i: nat, j: nat)
    requires |heads| == |lists| && Disjoint(heads, lists) && i < |lists| && j < |lists| && i != j
    ensures heads[i] != heads[j]
  {
    assert Apart([heads[i]] + lists[i], [heads[j]] + lists[j]);
    assert heads[i] in [heads[i]] + lists[i] && heads[j] in [heads[j]] + lists[j];
  }

  lemma TwoApart(heads: seq<Node>, lists: seq<seq<Node>>, i: nat, j: nat)
    requires |heads| == |lists| && Disjoint(heads, lists) && i < |lists| && j < |lists| && i != j
    ensures Apart([heads[i]] + lists[i], [heads[j]] + lists[j])
  {
  }

  /** list_move of an entry, seen from the heads of the list it leaves and the list it enters. */
  method MoveEntry(e: Node, head: Node, ghost h: Node, ghost a: seq<Node>, ghost b: seq<Node>, ghost xs: seq<Node>)
    requires CanEnter(e, head, h, a, b, xs)
    modifies h, a, e, b, head, xs
    ensures IsList(head, [e] + xs)
    ensures head != h ==> IsList(h, a + b)
  {
    hide IsList;
    Leaves(e, head, h, a, b, xs);
    ghost var ys := b + [h] + a;
    Move(e, head, ys, xs);
    assert ys[|b|] == h && ys[|b| + 1..] + ys[..|b|] == a + b;
  }

  method RunMoveFirst(heads: seq<Node>, e: Node, to: nat,
      ghost nodes: set<Node>, ghost lists: seq<seq<Node>>, ghost stale: set<nat>)
    requires Family(nodes, heads, lists, stale) && Listed(lists, e) && to < |heads| && to !in stale
    modifies nodes
    ensures var d := DropAll(lists, e); Family(nodes, heads, d[to := [e] + d[to]], stale)
    ensures forall n :: n in nodes && Loose(heads, lists, n) && old(IsList(n, [])) ==> IsList(n, [])
  {
    hide IsList, Disjoint, DropAll, CanEnter;
    ghost var i, a, b := Locate(nodes, heads, lists, stale, e);
    ghost var d := DropAll(lists, e);
    Others(heads, lists, i, to);
    InList(nodes, heads, lists, e, i, a, b);
    MoveReady(nodes, heads, lists, stale, e, i, a, b, to);
    DisjointUpdate(heads, d, to, [e] + d[to]);
    MoveEntry(e, heads[to], heads[i], a, b, d[to]);
  }

  /** list_move_tail of an entry, seen from the heads of the list it leaves and the list it enters. */
  method MoveTailEntry(e: Node, head: Node, ghost h: Node, ghost a: seq<Node>, ghost b: seq<Node>, ghost xs: seq<Node>)
    requires CanEnter(e, head, h, a, b, xs)
    modifies h, a, e, b, head, xs
    ensures IsList(head, xs + [e])
    ensures head != h ==> IsList(h, a + b)
  {
    hide IsList;
    Leaves(e, head, h, a, b, xs);
    ghost var ys := b + [h] + a;
    MoveTail(e, head, ys, xs);
    assert ys[|b|] == h && ys[|b| + 1..] + ys[..|b|] == a + b;
  }

  method RunMoveLast(heads: seq<Node>, e: Node, to: nat,
      ghost nodes: set<Node>, ghost lists: seq<seq<Node>>, ghost stale: set<nat>)
    requires Family(nodes, heads, lists, stale) && Listed(lists, e) && to < |heads| && to !in stale
    modifies nodes
    ensures var d := DropAll(lists, e); Family(nodes, heads, d[to := d[to] + [e]], stale)
    ensures forall n :: n in nodes && Loose(heads, lists, n) && old(IsList(n, [])) ==> IsList(n, [])
  {
    hide IsList, Disjoint, DropAll, CanEnter;
    ghost var i, a, b := Locate(nodes, heads, lists, stale, e);
    ghost var d := DropAll(lists, e);
    Others(heads, lists, i, to);
    InList(nodes, heads, lists, e, i, a, b);
    MoveReady(nodes, heads, lists, stale, e, i, a, b, to);
    DisjointUpdate(heads, d, to, d[to] + [e]);
    MoveTailEntry(e, heads[to], heads[i], a, b, d[to]);
  }

  /** The nodes of two lists handed out anew between them, or some of them dropped. */
  lemma DisjointExchange(heads: seq<Node>, lists: seq<seq<Node>>, i: nat, j: nat, xs: seq<Node>, ys: seq<Node>)
    requires |heads| == |lists| && Disjoint(heads, lists) && i < |lists| && j < |lists| && i != j
    requires Apart(xs, ys) && forall n :: n in xs + ys ==> n in lists[i] || n in lists[j]
    requires heads[i] !in lists[i] && heads[j] !in lists[j]
    ensures Disjoint(heads, lists[j := ys][i := xs])
  {
    var r := lists[j := ys][i := xs];
    forall a, b | 0 <= a < |r| && 0 <= b < |r| && a != b ensures Apart([heads[a]] + r[a], [heads[b]] + r[b]) {
      Pairwise(heads, lists, a, b);
      Pairwise(heads, lists, a, i);
      Pairwise(heads, lists, a, j);
      Pairwise(heads, lists, b, i);
      Pairwise(heads, lists, b, j);
      Pairwise(heads, lists, i, j);
      assert forall n :: n in xs ==> n in xs + ys;
      assert forall n :: n in ys ==> n in xs + ys;
    }
  }

  lemma WithinExchange(nodes: set<Node>, heads: seq<Node>, lists: seq<seq<Node>>, i: nat, j: nat, xs: seq<Node>,
      ys: seq<Node>)
    requires Within(nodes, heads, lists) && i < |lists| && j < |lists| && i != j
    requires forall n :: n in xs + ys ==> n in lists[i] || n in lists[j]
    ensures Within(nodes, heads, lists[j := ys][i := xs])
  {
    assert forall k :: 0 <= k < |xs| ==> xs[k] in xs + ys;
    assert forall k :: 0 <= k < |ys| ==> ys[k] in xs + ys;
  }

  lemma Pairwise(heads: seq<Node>, lists: seq<seq<Node>>, i: nat, j: nat)
    requires |heads| == |lists| && Disjoint(heads, lists) && i < |lists| && j < |lists|
    ensures i != j ==>
            heads[i] != heads[j] && heads[i] !in lists[j] && heads[j] !in lists[i]
            && Apart(lists[i], lists[j]) && Apart(lists[j], lists[i])
  {
    if i != j {
      assert Apart([heads[i]] + lists[i], [heads[j]] + lists[j]);
      ApartNodes(heads[i], lists[i], heads[j], lists[j]);
    }
  }

  method RunSpliceFirst(heads: seq<Node>, i: nat, j: nat,
      ghost nodes: set<Node>, ghost lists: seq<seq<Node>>, ghost stale: set<nat>)
    requires Family(nodes, heads, lists, stale) && i < |heads| && j < |heads| && i != j && i !in stale && j !in stale
    modifies nodes
    ensures Family(nodes, heads, lists[j := lists[i] + lists[j]][i := []], stale)
    ensures forall n :: n in nodes && Loose(heads, lists, n) && old(IsList(n, [])) ==> IsList(n, [])
  {
    hide IsList, Disjoint;
    Others(heads, lists, i, j);
    TwoApart(heads, lists, i, j);
    Neighbours(heads[i], lists[i]);
    Neighbours(heads[j], lists[j]);
    DisjointExchange(heads, lists, i, j, [], lists[i] + lists[j]);
    SpliceInit(heads[i], heads[j], lists[i], lists[j]);
  }

  method RunSpliceLast(heads: seq<Node>, i: nat, j: nat,
      ghost nodes: set<Node>, ghost lists: seq<seq<Node>>, ghost stale: set<nat>)
    requires Family(nodes, heads, lists, stale) && i < |heads| && j < |heads| && i != j && i !in stale && j !in stale
    modifies nodes
    ensures Family(nodes, heads, lists[j := lists[j] + lists[i]][i := []], stale)
    ensures forall n :: n in nodes && Loose(heads, lists, n) && old(IsList(n, [])) ==> IsList(n, [])
  {
    hide IsList, Disjoint;
    Others(heads, lists, i, j);
    TwoApart(heads, lists, i, j);
    Neighbours(heads[i], lists[i]);
    Neighbours(heads[j], lists[j]);
    DisjointExchange(heads, lists, i, j, [], lists[j] + lists[i]);
    SpliceTailInit(heads[i], heads[j], lists[i], lists[j]);
  }

  lemma {:induction false} UpToIndex(s: seq<Node>, e: Node, k: nat)
    requires k < |s| && s[k] == e && e !in s[..k]
    ensures |UpTo(s, e)| == k + 1
  {
    if k > 0 {
      assert s[0] in s[..k];
      assert s[1..][..k - 1] == s[..k][1..];
      UpToIndex(s[1..], e, k - 1);
    }
  }

  // ---- Replacing an entry ----

  lemma {:induction false} SubstKeeps(s: seq<Node>, e: Node, n: Node)
    requires e !in s
    ensures Subst(s, e, n) == s
  {
    if s != [] { SubstKeeps(s[1..], e, n); }
  }

  lemma SubstFirst(s: seq<Node>, e: Node, n: Node)
    requires s != []
    ensures Subst(s, e, n) == [if s[0] == e then n else s[0]] + Subst(s[1..], e, n)
  {
  }

  lemma {:induction false} SubstFinds(a: seq<Node>, e: Node, b: seq<Node>, n: Node)
    requires e !in a && e !in b
    ensures Subst(a + [e] + b, e, n) == a + [n] + b
  {
    hide Subst;
    var s := a + [e] + b;
    SubstFirst(s, e, n);
    if a == [] {
      assert s[1..] == b;
      SubstKeeps(b, e, n);
    } else {
      assert s[0] == a[0] && s[1..] == a[1..] + [e] + b;
      SubstFinds(a[1..], e, b, n);
      assert a + [n] + b == [a[0]] + (a[1..] + [n] + b);
    }
  }

  lemma SubstLocated(heads: seq<Node>, lists: seq<seq<Node>>, e: Node, n: Node, i: nat, a: seq<Node>, b: seq<Node>)
    requires |heads| == |lists| && Disjoint(heads, lists) && Located(heads, lists, e, i, a, b)
    ensures SubstAll(lists, e, n) == lists[i := a + [n] + b]
  {
    hide Disjoint, DropAll;
    assert lists[i][|a|] == e && e in lists[i];
    forall m | 0 <= m < |lists|
      ensures SubstAll(lists, e, n)[m] == lists[i := a + [n] + b][m]
    {
      if m == i {
        SubstFinds(a, e, b, n);
      } else {
        OnlyHere(heads, lists, e, i, m);
        SubstKeeps(lists[m], e, n);
      }
    }
  }

  /** list_replace or list_replace_init of an entry, seen from the head of its list. */
  method ReplaceEntry(ghost h: Node, e: Node, n: Node, ghost a: seq<Node>, ghost b: seq<Node>, init: bool)
    requires IsList(h, a + [e] + b) && n != h && n != e && n !in a && n !in b
    modifies h, a, e, b, n
    ensures IsList(h, a + [n] + b) && (init ==> IsList(e, []))
  {
    hide IsList;
    ghost var ys := b + [h] + a;
    Turned(h, a, e, b);
    assert n !in ys;
    if init { ReplaceInit(e, n, ys); } else { Replace(e, n, ys); }
    Turn(h, a, n, b);
  }

  method RunReplace(heads: seq<Node>, e: Node, n: Node, init: bool,
      ghost nodes: set<Node>, ghost lists: seq<seq<Node>>, ghost stale: set<nat>)
    requires Family(nodes, heads, lists, stale) && Listed(lists, e) && n in nodes && Loose(heads, lists, n)
    modifies nodes
    ensures Family(nodes, heads, SubstAll(lists, e, n), stale)
    ensures forall m :: m in nodes && Loose(heads, lists, m) && m != n && old(IsList(m, [])) ==> IsList(m, [])
    ensures init ==> IsList(e, [])
  {
    hide IsList, Disjoint, DropAll, SubstAll;
    ghost var i, a, b := Locate(nodes, heads, lists, stale, e);
    SubstLocated(heads, lists, e, n, i, a, b);
    Others(heads, lists, i, i);
    DisjointUpdate(heads, lists, i, a + [n] + b);
    InList(nodes, heads, lists, e, i, a, b);
    ReplaceEntry(heads[i], e, n, a, b, init);
  }

  /** list_replace or list_replace_init of a head: the new node heads the same entries. */
  method RunReplaceHead(heads: seq<Node>, i: nat, n: Node, init: bool,
      ghost nodes: set<Node>, ghost lists: seq<seq<Node>>, ghost stale: set<nat>)
    returns (now: seq<Node>)
    requires Family(nodes, heads, lists, stale) && i < |heads| && i !in stale
    requires n in nodes && Loose(heads, lists, n)
    modifies nodes
    ensures now == heads[i := n] && Family(nodes, now, lists, stale)
    ensures forall m :: m in nodes && Loose(heads, lists, m) && m != n && old(IsList(m, [])) ==> IsList(m, [])
    ensures init ==> IsList(heads[i], [])
  {
    hide IsList, Disjoint;
    var h := heads[i];
    now := heads[i := n];
    Others(heads, lists, i, i);
    Neighbours(h, lists[i]);
    DisjointHead(heads, lists, i, n);
    NotListed(lists, i, n);
    if init { ReplaceInit(h, n, lists[i]); } else { Replace(h, n, lists[i]); }
  }

  lemma NotListed(lists: seq<seq<Node>>, i: nat, n: Node)
    requires i < |lists| && !Listed(lists, n)
    ensures n !in lists[i]
    ensures forall m, k :: 0 <= m < |lists| && 0 <= k < |lists[m]| ==> lists[m][k] != n
  {
  }

  lemma DisjointHead(heads: seq<Node>, lists: seq<seq<Node>>, i: nat, n: Node)
    requires |heads| == |lists| && Disjoint(heads, lists) && i < |lists| && Loose(heads, lists, n)
    ensures Disjoint(heads[i := n], lists)
  {
    var now := heads[i := n];
    forall a, b | 0 <= a < |lists| && 0 <= b < |lists| && a != b
      ensures Apart([now[a]] + lists[a], [now[b]] + lists[b])
    {
      Pairwise(heads, lists, a, b);
    }
  }

  // ---- Splicing without setting up the emptied head, and setting up a head ----

  method RunJoinFirst(heads: seq<Node>, i: nat, j: nat,
      ghost nodes: set<Node>, ghost lists: seq<seq<Node>>, ghost stale: set<nat>)
    requires Family(nodes, heads, lists, stale) && i < |heads| && j < |heads| && i != j && i !in stale && j !in stale
    modifies nodes
    ensures Family(nodes, heads, lists[j := lists[i] + lists[j]][i := []], Spent(lists, stale, i))
    ensures forall n :: n in nodes && Loose(heads, lists, n) && old(IsList(n, [])) ==> IsList(n, [])
  {
    hide IsList, Disjoint;
    Others(heads, lists, i, j);
    TwoApart(heads, lists, i, j);
    Neighbours(heads[i], lists[i]);
    Neighbours(heads[j], lists[j]);
    Pairwise(heads, lists, i, j);
    DisjointExchange(heads, lists, i, j, [], lists[i] + lists[j]);
    Splice(heads[i], heads[j], lists[i], lists[j]);
  }

  method RunJoinLast(heads: seq<Node>, i: nat, j: nat,
      ghost nodes: set<Node>, ghost lists: seq<seq<Node>>, ghost stale: set<nat>)
    requires Family(nodes, heads, lists, stale) && i < |heads| && j < |heads| && i != j && i !in stale && j !in stale
    modifies nodes
    ensures Family(nodes, heads, lists[j := lists[j] + lists[i]][i := []], Spent(lists, stale, i))
    ensures forall n :: n in nodes && Loose(heads, lists, n) && old(IsList(n, [])) ==> IsList(n, [])
  {
    hide IsList, Disjoint;
    Others(heads, lists, i, j);
    TwoApart(heads, lists, i, j);
    Neighbours(heads[i], lists[i]);
    Neighbours(heads[j], lists[j]);
    Pairwise(heads, lists, i, j);
    DisjointExchange(heads, lists, i, j, [], lists[j] + lists[i]);
    SpliceTail(heads[i], heads[j], lists[i], lists[j]);
  }

  method RunReset(heads: seq<Node>, i: nat, ghost nodes: set<Node>, ghost lists: seq<seq<Node>>, ghost stale: set<nat>)
    requires Family(nodes, heads, lists, stale) && i < |heads|
    modifies nodes
    ensures Family(nodes, heads, lists[i := []], stale - {i})
    ensures forall n :: n in nodes && Loose(heads, lists, n) && old(IsList(n, [])) ==> IsList(n, [])
  {
    hide IsList, Disjoint;
    Others(heads, lists, i, i);
    DisjointUpdate(heads, lists, i, []);
    Init(heads[i]);
  }

  // ---- Cutting ----

  method RunCut(heads: seq<Node>, i: nat, e: Node, j: nat,
      ghost nodes: set<Node>, ghost lists: seq<seq<Node>>, ghost stale: set<nat>)
    requires Family(nodes, heads, lists, stale) && i < |heads| && j < |heads| && i != j && i !in stale
    requires e in [heads[i]] + lists[i]
    modifies nodes
    ensures Family(nodes, heads,
                   lists[j := CutTo(heads[i], lists[i], e, lists[j])][i := CutFrom(heads[i], lists[i], e)],
                   if lists[i] == [] then stale else stale - {j})
    ensures forall n :: n in nodes && Loose(heads, lists, n) && old(IsList(n, [])) ==> IsList(n, [])
  {
    hide IsList, Disjoint, CutTo, CutFrom;
    ghost var xs, ys := CutFrom(heads[i], lists[i], e), CutTo(heads[i], lists[i], e, lists[j]);
    if j !in stale { Neighbours(heads[j], lists[j]); }
    Others(heads, lists, i, j);
    CutReady(heads, lists, i, j, e);
    DisjointExchange(heads, lists, i, j, xs, ys);
    WithinExchange(nodes, heads, lists, i, j, xs, ys);
    CutEmpty(heads[i], lists[i], e, lists[j]);
    CutEntry(heads[j], heads[i], e, lists[i], lists[j], j !in stale);
  }

  lemma CutEmpty(h: Node, xs: seq<Node>, e: Node, ys: seq<Node>)
    ensures xs == [] ==> CutTo(h, xs, e, ys) == ys
  {
  }

  /** list_cut_position on an entry of the list, by what it leaves; `list` need not be a list before. */
  method CutEntry(list: Node, head: Node, e: Node, ghost xs: seq<Node>, ghost ys: seq<Node>, ghost known: bool)
    requires IsList(head, xs) && Apart([list] + ys, [head] + xs) && e in [head] + xs
    requires if known then IsList(list, ys) else ys == []
    modifies list, head, xs
    ensures IsList(head, CutFrom(head, xs, e)) && (known || xs != [] ==> IsList(list, CutTo(head, xs, e, ys)))
  {
    hide IsList;
    if known { Untouched(list, ys, head, xs); } else { ApartNodes(list, ys, head, xs); }
    Neighbours(head, xs);
    if e != head {
      ghost var k :| 0 <= k < |xs| && xs[k] == e;
      OnlyOnce(head, xs, k);
      UpToIndex(xs, e, k);
    }
    CutPosition(list, head, e, xs);
  }

  lemma CutReady(heads: seq<Node>, lists: seq<seq<Node>>, i: nat, j: nat, e: Node)
    requires |heads| == |lists| && Disjoint(heads, lists) && i < |lists| && j < |lists| && i != j
    requires IsList(heads[i], lists[i]) && heads[j] !in lists[j]
    ensures Apart([heads[j]] + lists[j], [heads[i]] + lists[i])
    ensures heads[i] !in lists[i]
    ensures var xs, ys := CutFrom(heads[i], lists[i], e), CutTo(heads[i], lists[i], e, lists[j]);
            Apart(xs, ys) && (forall n :: n in xs + ys ==> n in lists[i] || n in lists[j])
  {
    hide IsList, Disjoint, UpTo;
    TwoApart(heads, lists, j, i);
    Pairwise(heads, lists, i, j);
    Neighbours(heads[i], lists[i]);
    var s, n := lists[i], |UpTo(lists[i], e)|;
    assert s[..n] + s[n..] == s;
    DistinctConcat(s[..n], s[n..]);
  }

  // ---- Runs ----

  /** The node a command brings in, if any. */
  function Brings(c: Command): set<Node> {
    match c
    case AddFirst(e, _) => {e}
    case AddLast(e, _) => {e}
    case Exchange(_, n) => {n}
    case ExchangeInit(_, n) => {n}
    case ExchangeHead(_, n) => {n}
    case ExchangeHeadInit(_, n) => {n}
    case _ => {}
  }

  ghost predicate Holds(nodes: set<Node>, heads: seq<Node>, w: World)
    reads nodes
  {
    Family(nodes, heads, w.lists, w.stale) && AllAlone(nodes, heads, w)
  }

  /** Each node that was left alone is in no list and an empty list of its own. */
  ghost predicate AllAlone(nodes: set<Node>, heads: seq<Node>, w: World)
    reads nodes
  {
    forall n :: n in w.alone ==> n in nodes && Loose(heads, w.lists, n) && IsList(n, [])
  }

  /** The node that a command leaves alone, if any. */
  function Frees(heads: seq<Node>, c: Command): set<Node> {
    match c
    case DeleteInit(e) => {e}
    case ExchangeInit(e, _) => {e}
    case ExchangeHeadInit(i, _) => if i < |heads| then {heads[i]} else {}
    case _ => {}
  }

  lemma {:induction false} InDrop(s: seq<Node>, e: Node, n: Node)
    ensures n in Drop(s, e) <==> n in s && n != e
  {
    if s != [] {
      InDrop(s[1..], e, n);
      assert s == [s[0]] + s[1..];
    }
  }

  lemma {:induction false} InSubst(s: seq<Node>, e: Node, n: Node, m: Node)
    requires m != n
    ensures m in Subst(s, e, n) <==> m in s && m != e
  {
    if s != [] {
      InSubst(s[1..], e, n, m);
      assert s == [s[0]] + s[1..];
    }
  }

  lemma InCut(h: Node, xs: seq<Node>, e: Node, ys: seq<Node>, n: Node)
    ensures n in CutFrom(h, xs, e) ==> n in xs
    ensures n in CutTo(h, xs, e, ys) ==> n in xs || n in ys
  {
    hide UpTo;
  }

  /** A command puts nothing into a list that was not in one, but for what it brings in. */
  lemma NothingElse(heads: seq<Node>, w: World, c: Command, n: Node)
    requires |heads| == |w.lists| && Enabled(heads, w, c) && n !in Brings(c)
    ensures Listed(Apply(heads, w, c).lists, n) ==> Listed(w.lists, n)
    ensures c.DeleteInit? && n == c.entry ==> !Listed(Apply(heads, w, c).lists, n)
    ensures c.ExchangeInit? && n == c.entry ==> !Listed(Apply(heads, w, c).lists, n)
  {
    hide CutFrom, CutTo, Enabled;
    var r := Apply(heads, w, c).lists;
    forall k | 0 <= k < |r| && n in r[k]
      ensures Listed(w.lists, n)
      ensures !((c.DeleteInit? || c.ExchangeInit?) && n == c.entry)
    {
      ComesFrom(heads, w, c, n, k);
    }
  }

  lemma ComesFrom(heads: seq<Node>, w: World, c: Command, n: Node, k: nat)
    requires |heads| == |w.lists| && Enabled(heads, w, c) && n !in Brings(c)
    requires k < |w.lists| && n in Apply(heads, w, c).lists[k]
    ensures Listed(w.lists, n)
    ensures !((c.DeleteInit? || c.ExchangeInit?) && n == c.entry)
  {
    hide CutFrom, CutTo, Drop, Subst;
    match c
    case Delete(e) => InDrop(w.lists[k], e, n);
    case DeleteInit(e) => InDrop(w.lists[k], e, n);
    case MoveFirst(e, _) => InDrop(w.lists[k], e, n);
    case MoveLast(e, _) => InDrop(w.lists[k], e, n);
    case Exchange(e, m) => InSubst(w.lists[k], e, m, n);
    case ExchangeInit(e, m) => InSubst(w.lists[k], e, m, n);
    case Cut(i, e, j) => InCut(heads[i], w.lists[i], e, w.lists[j], n);
    case _ =>
  }

  /** What is alone after a command is loose: it was alone before, or it is what the command left alone. */
  lemma AloneIsLoose(nodes: set<Node>, heads: seq<Node>, w: World, c: Command, n: Node)
    requires Holds(nodes, heads, w) && |heads| == |w.lists| && Enabled(heads, w, c)
    requires n in Apply(heads, w, c).alone
    ensures n !in Brings(c) && (n in Frees(heads, c) || n in w.alone)
    ensures n in nodes && Loose(HeadsAfter(heads, w, c), Apply(heads, w, c).lists, n)
  {
    hide IsList, DropAll, SubstAll, CutFrom, CutTo, Spent;
    NothingElse(heads, w, c, n);
    if n in Frees(heads, c) { FreedIsLoose(nodes, heads, w, c, n); }
  }

  lemma FreedIsLoose(nodes: set<Node>, heads: seq<Node>, w: World, c: Command, n: Node)
    requires Holds(nodes, heads, w) && |heads| == |w.lists| && Enabled(heads, w, c) && n in Frees(heads, c)
    ensures n !in Brings(c) && n in nodes && n !in HeadsAfter(heads, w, c)
    ensures !Listed(Apply(heads, w, c).lists, n)
  {
    hide IsList, DropAll, SubstAll, CutFrom, CutTo, Spent, Disjoint;
    if c.ExchangeHeadInit? {
      HeadIsLoose(nodes, heads, w, c.at, c.other);
    } else {
      var i, a, b := Locate(nodes, heads, w.lists, w.stale, n);
      InList(nodes, heads, w.lists, n, i, a, b);
      NothingElse(heads, w, c, n);
      forall k | 0 <= k < |heads|
        ensures heads[k] != n
      {
        if k != i { OnlyHere(heads, w.lists, n, i, k); }
      }
    }
  }

  lemma HeadIsLoose(nodes: set<Node>, heads: seq<Node>, w: World, i: nat, m: Node)
    requires Holds(nodes, heads, w) && |heads| == |w.lists| && Usable(w, i) && Loose(heads, w.lists, m)
    ensures heads[i] in nodes && heads[i] != m && heads[i] !in heads[i := m] && !Listed(w.lists, heads[i])
  {
    hide IsList, Disjoint;
    var h := heads[i];
    Neighbours(h, w.lists[i]);
    forall k | 0 <= k < |heads|
      ensures (k != i ==> heads[k] != h) && h !in w.lists[k]
    {
      Pairwise(heads, w.lists, i, k);
    }
  }

  method Step(heads: seq<Node>, c: Command, ghost nodes: set<Node>, ghost w: World) returns (now: seq<Node>)
    requires Holds(nodes, heads, w) && |heads| == |w.lists| && Enabled(heads, w, c) && Brings(c) <= nodes
    modifies nodes
    ensures now == HeadsAfter(heads, w, c) && Holds(nodes, now, Apply(heads, w, c))
  {
    hide Family, Listed, DropAll, SubstAll, CutFrom, CutTo, Spent, IsList;
    now := heads;
    forall n | n in Apply(heads, w, c).alone
      ensures n !in Brings(c) && (n in Frees(heads, c) || n in w.alone)
      ensures n in nodes && Loose(HeadsAfter(heads, w, c), Apply(heads, w, c).lists, n)
    {
      AloneIsLoose(nodes, heads, w, c, n);
    }
    match c {
      case AddFirst(e, i) => RunAddFirst(heads, e, i, nodes, w.lists, w.stale);
      case AddLast(e, i) => RunAddLast(heads, e, i, nodes, w.lists, w.stale);
      case Delete(e) => RunRemove(heads, e, false, nodes, w.lists, w.stale);
      case DeleteInit(e) => RunRemove(heads, e, true, nodes, w.lists, w.stale);
      case Exchange(e, n) => RunReplace(heads, e, n, false, nodes, w.lists, w.stale);
      case ExchangeInit(e, n) => RunReplace(heads, e, n, true, nodes, w.lists, w.stale);
      case ExchangeHead(i, n) => now := RunReplaceHead(heads, i, n, false, nodes, w.lists, w.stale);
      case ExchangeHeadInit(i, n) => now := RunReplaceHead(heads, i, n, true, nodes, w.lists, w.stale);
      case MoveFirst(e, i) => RunMoveFirst(heads, e, i, nodes, w.lists, w.stale);
      case MoveLast(e, i) => RunMoveLast(heads, e, i, nodes, w.lists, w.stale);
      case Rotate(i) => RunRotate(heads, i, nodes, w.lists, w.stale);
      case Cut(i, e, j) => RunCut(heads, i, e, j, nodes, w.lists, w.stale);
      case JoinFirst(i, j) => RunJoinFirst(heads, i, j, nodes, w.lists, w.stale);
      case JoinLast(i, j) => RunJoinLast(heads, i, j, nodes, w.lists, w.stale);
      case JoinFirstInit(i, j) => RunSpliceFirst(heads, i, j, nodes, w.lists, w.stale);
      case JoinLastInit(i, j) => RunSpliceLast(heads, i, j, nodes, w.lists, w.stale);
      case Reset(i) => RunReset(heads, i, nodes, w.lists, w.stale);
    }
  }

  function ApplyAll(heads: seq<Node>, w: World, cs: seq<Command>): (r: World)
    requires |heads| == |w.lists| && AllEnabled(heads, w, cs)
    ensures |r.lists| == |w.lists|
    decreases |cs|
  {
    if cs == [] then w else ApplyAll(HeadsAfter(heads, w, cs[0]), Apply(heads, w, cs[0]), cs[1..])
  }

  function HeadsAfterAll(heads: seq<Node>, w: World, cs: seq<Command>): (r: seq<Node>)
    requires |heads| == |w.lists| && AllEnabled(heads, w, cs)
    ensures |r| == |heads|
    decreases |cs|
  {
    if cs == [] then heads else HeadsAfterAll(HeadsAfter(heads, w, cs[0]), Apply(heads, w, cs[0]), cs[1..])
  }

  predicate AllEnabled(heads: seq<Node>, w: World, cs: seq<Command>)
    requires |heads| == |w.lists|
    decreases |cs|
  {
    cs == [] ||
    (Enabled(heads, w, cs[0]) && AllEnabled(HeadsAfter(heads, w, cs[0]), Apply(heads, w, cs[0]), cs[1..]))
  }

  /**
   * Every program over a family of disjoint lists leaves a family of disjoint, well-formed lists
   * with exactly the contents the same program has on sequences.
   */
  method Run(heads: seq<Node>, cs: seq<Command>, ghost nodes: set<Node>, ghost w: World) returns (now: seq<Node>)
    requires Holds(nodes, heads, w) && |heads| == |w.lists| && AllEnabled(heads, w, cs)
    requires forall i :: 0 <= i < |cs| ==> Brings(cs[i]) <= nodes
    modifies nodes
    ensures now == HeadsAfterAll(heads, w, cs) && Holds(nodes, now, ApplyAll(heads, w, cs))
  {
    hide Holds, Apply, Enabled, Brings, HeadsAfter;
    now := heads;
    ghost var at := w;
    var i := 0;
    assert cs[0..] == cs;
    while i < |cs|
      invariant 0 <= i <= |cs| && |at.lists| == |now| && Holds(nodes, now, at) && AllEnabled(now, at, cs[i..])
      invariant ApplyAll(now, at, cs[i..]) == ApplyAll(heads, w, cs)
      invariant HeadsAfterAll(now, at, cs[i..]) == HeadsAfterAll(heads, w, cs)
    {
      assert cs[i..][0] == cs[i] && cs[i..][1..] == cs[i + 1..];
      ghost var next := Apply(now, at, cs[i]);
      now := Step(now, cs[i], nodes, at);
      at := next;
      i := i + 1;
    }
  }
}
