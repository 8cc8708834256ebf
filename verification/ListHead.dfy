/**
 * Intrusive circular doubly linked lists: the pointer surgery of every operation refines an operation on sequences.
 * A head `h` with entries `xs` is written `IsList(h, xs)`; links left dangling on purpose (poison) are null.
 */
module ListHead {

  class Node {
    var next: Node?
    var prev: Node?

    constructor ()
      ensures next == null && prev == null
    {
      next, prev := null, null;
    }
  }

  // ---- Abstraction ----

  predicate Distinct(s: seq<Node>) {
    forall i, j :: 0 <= i < j < |s| ==> s[i] != s[j]
  }

  predicate Apart(s: seq<Node>, t: seq<Node>) {
    forall x :: x in s ==> x !in t
  }

  /** Each node's next is the node after it, whose prev leads back. */
  ghost predicate Chain(w: seq<Node>)
    reads w
  {
    forall i, j :: 0 <= i < j < |w| && j == i + 1 ==> w[i].next == w[j] && w[j].prev == w[i]
  }

  /** Following next from `a` passes through `s` and arrives at `b`; following prev from `b` goes the same way back. */
  ghost predicate Path(a: Node, s: seq<Node>, b: Node)
    reads a, s, b
  {
    Chain([a] + s + [b])
  }

  ghost predicate IsList(head: Node, xs: seq<Node>)
    reads head, xs
  {
    Distinct([head] + xs) && Path(head, xs, head)
  }

  // ---- Facts about paths ----

  lemma PathConcat(a: Node, s: seq<Node>, m: Node, t: seq<Node>, b: Node)
    ensures Path(a, s + [m] + t, b) <==> Path(a, s, m) && Path(m, t, b)
  {
    var u, v, w := [a] + (s + [m] + t) + [b], [a] + s + [m], [m] + t + [b];
    var n := |s| + 1;
    assert forall i :: 0 <= i < |v| ==> v[i] == u[i];
    assert forall i :: 0 <= i < |w| ==> w[i] == u[n + i];
    if Chain(v) && Chain(w) {
      forall i, j | 0 <= i < j < |u| && j == i + 1 ensures u[i].next == u[j] && u[j].prev == u[i] {
        if j < |v| { assert v[i] == u[i] && v[j] == u[j]; } else { assert w[i - n] == u[i] && w[j - n] == u[j]; }
      }
    }
  }

  lemma DistinctConcat(s: seq<Node>, t: seq<Node>)
    ensures Distinct(s + t) <==> Distinct(s) && Distinct(t) && Apart(s, t)
  {
    var u := s + t;
    assert forall i :: 0 <= i < |s| ==> s[i] == u[i];
    assert forall i :: 0 <= i < |t| ==> t[i] == u[|s| + i];
    if Distinct(s) && Distinct(t) && Apart(s, t) {
      forall i, j | 0 <= i < j < |u| ensures u[i] != u[j] {
        if j < |s| { assert s[i] != s[j]; }
        else if i < |s| { assert s[i] in s && t[j - |s|] in t; }
        else { assert t[i - |s|] != t[j - |s|]; }
      }
    }
  }

  /** The entries are what the links say: a heap holds at most one list for a head. */
  lemma {:induction false} ListIsUnique(head: Node, xs: seq<Node>, ys: seq<Node>)
    requires IsList(head, xs) && IsList(head, ys)
    ensures xs == ys
  {
    if |xs| <= |ys| { SamePrefix(head, xs, ys, |xs|); } else { SamePrefix(head, ys, xs, |ys|); }
  }

  /** Two walks from the same head agree step by step, so the longer one would meet the head again. */
  lemma {:induction false} SamePrefix(head: Node, xs: seq<Node>, ys: seq<Node>, n: nat)
    requires Path(head, xs, head) && IsList(head, ys) && n <= |xs| <= |ys|
    ensures xs[..n] == ys[..n]
    ensures n == |xs| ==> |xs| == |ys|
  {
    var v, w := [head] + xs + [head], [head] + ys + [head];
    if n > 0 {
      SamePrefix(head, xs, ys, n - 1);
      assert xs[..n] == xs[..n - 1] + [xs[n - 1]] && ys[..n] == ys[..n - 1] + [ys[n - 1]];
      assert n > 1 ==> xs[n - 2] == xs[..n - 1][n - 2] == ys[..n - 1][n - 2] == ys[n - 2];
      assert v[n - 1] == w[n - 1];
      assert v[n - 1].next == v[n] == w[n];
    }
    assert n > 0 ==> xs[n - 1] == xs[..n][n - 1] == ys[..n][n - 1] == ys[n - 1];
    assert v[n] == w[n];
    assert n < |ys| ==> ([head] + ys)[0] != ([head] + ys)[n + 1];
    assert v[n].next == v[n + 1] == w[n + 1];
  }

  /** Any entry may serve as the head of the same ring. */
  lemma Turn(h: Node, a: seq<Node>, e: Node, b: seq<Node>)
    ensures IsList(h, a + [e] + b) <==> IsList(e, b + [h] + a)
  {
    hide Path, Distinct;
    PathConcat(h, a, e, b, h);
    PathConcat(e, b, h, a, e);
    assert [h] + (a + [e] + b) == ([h] + a) + ([e] + b);
    assert [e] + (b + [h] + a) == ([e] + b) + ([h] + a);
    DistinctConcat([h] + a, [e] + b);
    DistinctConcat([e] + b, [h] + a);
  }

  /** next and prev undo each other everywhere on a ring. */
  lemma Inverse(head: Node, xs: seq<Node>, n: Node)
    requires IsList(head, xs) && n in [head] + xs
    ensures n.next != null && n.prev != null && n.next.prev == n && n.prev.next == n
  {
    var w := [head] + xs + [head];
    var r := [head] + xs;
    var k :| 0 <= k < |r| && r[k] == n;
    assert w[k] == n && w[k + 1].prev == n;
    if k > 0 {
      assert w[k - 1].next == n;
    } else {
      assert w[|xs|].next == w[|xs| + 1] == n;
    }
  }

  ghost predicate Linked(a: Node, b: Node)
    reads a, b
  {
    a.next == b && b.prev == a
  }

  /** The same ring seen as its pieces: the chain of entries and the links that tie it to the head. */
  ghost predicate Tied(head: Node, xs: seq<Node>)
    reads head, xs
  {
    && Distinct(xs) && head !in xs
    && if xs == [] then Linked(head, head) else Linked(head, xs[0]) && Chain(xs) && Linked(xs[|xs| - 1], head)
  }

  lemma ListIsTied(head: Node, xs: seq<Node>)
    ensures IsList(head, xs) <==> Tied(head, xs)
  {
    var w := [head] + xs + [head];
    assert forall i :: 0 <= i < |xs| ==> xs[i] == w[i + 1];
    DistinctConcat([head], xs);
    if Tied(head, xs) {
      forall i, j | 0 <= i < j < |w| && j == i + 1 ensures w[i].next == w[j] && w[j].prev == w[i] {
        if 0 < i < |xs| { assert w[i] == xs[i - 1] && w[j] == xs[i]; }
      }
    }
    if IsList(head, xs) {
      assert w[0].next == w[1] && w[1].prev == w[0];
      assert w[|xs|].next == w[|xs| + 1] && w[|xs| + 1].prev == w[|xs|];
    }
  }

  lemma ChainConcat(s: seq<Node>, t: seq<Node>)
    requires s != [] && t != []
    ensures Chain(s + t) <==> Chain(s) && Linked(s[|s| - 1], t[0]) && Chain(t)
  {
    var u := s + t;
    assert forall i :: 0 <= i < |s| ==> s[i] == u[i];
    assert forall i :: 0 <= i < |t| ==> t[i] == u[|s| + i];
    if Chain(s) && Linked(s[|s| - 1], t[0]) && Chain(t) {
      forall i, j | 0 <= i < j < |u| && j == i + 1 ensures u[i].next == u[j] && u[j].prev == u[i] {
        if j < |s| { assert u[i] == s[i] && u[j] == s[j]; }
        else if |s| <= i { assert u[i] == t[i - |s|] && u[j] == t[j - |s|]; }
      }
    }
    if Chain(u) { assert u[|s| - 1].next == u[|s|]; }
  }

  /** A chain survives any change to the outward links of its two ends. */
  twostate lemma ChainFrame(s: seq<Node>)
    requires s != [] && Distinct(s) && old(Chain(s))
    requires forall n :: n in s && n != s[|s| - 1] ==> n.next == old(n.next)
    requires forall n :: n in s && n != s[0] ==> n.prev == old(n.prev)
    ensures Chain(s)
  {
  }

  // ---- Operations ----

  /** INIT_LIST_HEAD. */
  method Init(list: Node)
    modifies list
    ensures IsList(list, [])
  {
    list.next := list;
    list.prev := list;
  }

  /** __list_add. */
  method Insert(entry: Node, prev: Node, next: Node)
    requires entry != prev && entry != next
    modifies next`prev, entry, prev`next
    ensures Linked(prev, entry) && Linked(entry, next)
  {
    next.prev := entry;
    entry.next := next;
    entry.prev := prev;
    prev.next := entry;
  }

  /** list_add. */
  method Add(entry: Node, head: Node, ghost xs: seq<Node>)
    requires IsList(head, xs) && entry != head && entry !in xs
    modifies head, entry, head.next
    ensures IsList(head, [entry] + xs)
  {
    ListIsTied(head, xs);
    Insert(entry, head, head.next);
    if xs != [] {
      ChainFrame(xs);
      ChainConcat([entry], xs);
    }
    DistinctConcat([entry], xs);
    ListIsTied(head, [entry] + xs);
  }

  /** list_add_tail. */
  method AddTail(entry: Node, head: Node, ghost xs: seq<Node>)
    requires IsList(head, xs) && entry != head && entry !in xs
    modifies head, entry, head.prev
    ensures IsList(head, xs + [entry])
  {
    ListIsTied(head, xs);
    Insert(entry, head.prev, head);
    if xs != [] {
      ChainFrame(xs);
      ChainConcat(xs, [entry]);
    }
    DistinctConcat(xs, [entry]);
    ListIsTied(head, xs + [entry]);
  }

  /** Every node of `r` sees the others, in ring order, as the entries of its list. */
  ghost predicate Ring(r: seq<Node>)
    reads r
  {
    forall k :: 0 <= k < |r| ==> IsList(r[k], r[k + 1..] + r[..k])
  }

  lemma ListIsRing(head: Node, xs: seq<Node>)
    ensures IsList(head, xs) <==> Ring([head] + xs)
  {
    hide IsList;
    var r := [head] + xs;
    assert r[1..] + r[..0] == xs;
    if IsList(head, xs) {
      forall k | 0 <= k < |r| ensures IsList(r[k], r[k + 1..] + r[..k]) {
        if k > 0 {
          Turn(head, r[1..k], r[k], r[k + 1..]);
          assert r[1..k] + [r[k]] + r[k + 1..] == xs;
          assert r[k + 1..] + [head] + r[1..k] == r[k + 1..] + r[..k];
        }
      }
    }
    assert Ring(r) ==> IsList(r[0], r[1..] + r[..0]);
  }

  /** __list_del_entry: the others close up; the entry keeps its own links. */
  method Unlink(entry: Node, ghost ys: seq<Node>)
    requires IsList(entry, ys)
    modifies entry.prev, entry.next
    ensures Ring(ys)
    ensures entry.next == old(entry.next) && entry.prev == old(entry.prev)
  {
    ListIsTied(entry, ys);
    var prev, next := entry.prev, entry.next;
    next.prev := prev;
    prev.next := next;
    if ys != [] {
      ChainFrame(ys);
      ghost var rest := ys[1..];
      assert ys == [ys[0]] + rest;
      if rest != [] { ChainConcat([ys[0]], rest); }
      DistinctConcat([ys[0]], rest);
      ListIsTied(ys[0], rest);
      ListIsRing(ys[0], rest);
    }
  }

  /** list_del. */
  method Del(entry: Node, ghost ys: seq<Node>)
    requires IsList(entry, ys)
    modifies entry, entry.prev, entry.next
    ensures Ring(ys) && entry.next == null && entry.prev == null
  {
    ListIsTied(entry, ys);
    Unlink(entry, ys);
    entry.next := null;
    entry.prev := null;
  }

  /** list_del_init. */
  method DelInit(entry: Node, ghost ys: seq<Node>)
    requires IsList(entry, ys)
    modifies entry, entry.prev, entry.next
    ensures Ring(ys) && IsList(entry, [])
  {
    ListIsTied(entry, ys);
    Unlink(entry, ys);
    Init(entry);
  }

  /** list_replace: the new node takes the old one's place, also when the old one was alone. */
  method Replace(out: Node, entry: Node, ghost ys: seq<Node>)
    requires IsList(out, ys) && entry != out && entry !in ys
    modifies out, entry, out.prev, out.next
    ensures IsList(entry, ys)
    ensures ys != [] ==> out.next == old(out.next) && out.prev == old(out.prev)
  {
    ListIsTied(out, ys);
    entry.next := out.next;
    entry.next.prev := entry;
    entry.prev := out.prev;
    entry.prev.next := entry;
    if ys != [] { ChainFrame(ys); }
    ListIsTied(entry, ys);
  }

  /** list_replace_init. */
  method ReplaceInit(out: Node, entry: Node, ghost ys: seq<Node>)
    requires IsList(out, ys) && entry != out && entry !in ys
    modifies out, entry, out.prev, out.next
    ensures IsList(entry, ys) && IsList(out, [])
  {
    ListIsTied(out, ys);
    Replace(out, entry, ys);
    Init(out);
  }

  /**
   * Where `entry` may move: behind another node of its own ring, whose other entries are then `xs`,
   * or behind the head of a separate list with entries `xs`.
   */
  ghost predicate CanMove(entry: Node, ys: seq<Node>, head: Node, xs: seq<Node>)
    reads entry, ys, head, xs
  {
    && IsList(entry, ys) && head != entry
    && if head in ys then exists k :: 0 <= k < |ys| && ys[k] == head && xs == ys[k + 1..] + ys[..k]
       else IsList(head, xs) && Apart([head] + xs, [entry] + ys)
  }

  /** list_move: `entry` has the other nodes `ys` in its ring. */
  method Move(entry: Node, head: Node, ghost ys: seq<Node>, ghost xs: seq<Node>)
    requires CanMove(entry, ys, head, xs)
    modifies entry, ys, head, xs
    ensures IsList(head, [entry] + xs)
    ensures head !in ys ==> Ring(ys)
  {
    hide IsList, CanMove, Ring;
    Detach(entry, head, ys, xs);
    Neighbours(head, xs);
    assert head !in ys ==> forall n :: n in ys ==> n != entry && n != head && n !in [head] + xs;
    Add(entry, head, xs);
  }

  /** list_move_tail. */
  method MoveTail(entry: Node, head: Node, ghost ys: seq<Node>, ghost xs: seq<Node>)
    requires CanMove(entry, ys, head, xs)
    modifies entry, ys, head, xs
    ensures IsList(head, xs + [entry])
    ensures head !in ys ==> Ring(ys)
  {
    hide IsList, CanMove, Ring;
    Detach(entry, head, ys, xs);
    Neighbours(head, xs);
    assert head !in ys ==> forall n :: n in ys ==> n != entry && n != head && n !in [head] + xs;
    AddTail(entry, head, xs);
  }

  /** The first half of a move: afterwards the destination is a list without `entry`. */
  method Detach(entry: Node, head: Node, ghost ys: seq<Node>, ghost xs: seq<Node>)
    requires CanMove(entry, ys, head, xs)
    modifies entry, ys
    ensures IsList(head, xs) && entry !in [head] + xs
    ensures head !in ys ==> Ring(ys) && Apart([entry] + ([head] + xs), ys)
  {
    hide IsList;
    Neighbours(entry, ys);
    Unlink(entry, ys);
    if head in ys {
      ghost var k :| 0 <= k < |ys| && ys[k] == head && xs == ys[k + 1..] + ys[..k];
      assert IsList(ys[k], ys[k + 1..] + ys[..k]);
    }
  }

  lemma Neighbours(head: Node, xs: seq<Node>)
    requires IsList(head, xs)
    ensures head.next != null && head.prev != null && head.next in [head] + xs && head.prev in [head] + xs
    ensures head !in xs
    ensures Distinct(xs)
  {
    ListIsTied(head, xs);
  }

  /** list_rotate_left. */
  method RotateLeft(head: Node, ghost xs: seq<Node>)
    requires IsList(head, xs)
    modifies head, xs
    ensures IsList(head, if xs == [] then [] else xs[1..] + [xs[0]])
  {
    ListIsTied(head, xs);
    if head.next != head {
      var first := head.next;
      ghost var rest := xs[1..];
      assert xs == [] + [first] + rest;
      Turn(head, [], first, rest);
      ghost var ys := rest + [head];
      assert rest + [head] + [] == ys && ys[|rest|] == head && ys[|rest| + 1..] + ys[..|rest|] == rest;
      MoveTail(first, head, ys, rest);
    }
  }

  // ---- Observers ----

  /** list_empty. */
  method IsEmpty(head: Node, ghost xs: seq<Node>) returns (r: bool)
    requires IsList(head, xs)
    ensures r <==> xs == []
  {
    ListIsTied(head, xs);
    r := head.next == head;
  }

  /** list_is_last. */
  method IsLast(entry: Node, head: Node, ghost xs: seq<Node>) returns (r: bool)
    requires IsList(head, xs) && entry in xs
    ensures r <==> entry == xs[|xs| - 1]
  {
    ListIsTied(head, xs);
    ghost var w := [head] + xs + [head];
    ghost var k :| 0 <= k < |xs| && xs[k] == entry;
    assert w[k + 1] == entry && entry.next == w[k + 2];
    r := entry.next == head;
  }

  /** list_is_singular. */
  method IsSingular(head: Node, ghost xs: seq<Node>) returns (r: bool)
    requires IsList(head, xs)
    ensures r <==> |xs| == 1
  {
    ListIsTied(head, xs);
    r := head.next != head && head.next == head.prev;
  }

  /** list_empty_careful. */
  method IsEmptyCareful(head: Node, ghost xs: seq<Node>) returns (r: bool)
    requires IsList(head, xs)
    ensures r <==> xs == []
  {
    ListIsTied(head, xs);
    var next := head.next;
    r := next == head && next == head.prev;
  }

  // ---- Cut and splice ----

  /** __list_cut_position: the first entries of `head`, up to and including `entry`, go to `list`. */
  method CutAt(list: Node, head: Node, entry: Node, ghost a: seq<Node>, ghost b: seq<Node>)
    requires IsList(head, a + [entry] + b) && list != head && list !in a + [entry] + b
    modifies list, head, a, entry, b
    ensures IsList(list, a + [entry]) && IsList(head, b)
  {
    ghost var xs, front := a + [entry] + b, a + [entry];
    Neighbours(head, xs);
    Pieces(head, a, entry, b);
    var newFirst := entry.next;
    list.next := head.next;
    list.next.prev := list;
    list.prev := entry;
    entry.next := list;
    head.next := newFirst;
    newFirst.prev := head;
    ChainFrame(front);
    if b != [] { ChainFrame(b); }
    ListIsTied(list, front);
    ListIsTied(head, b);
  }

  lemma Pieces(head: Node, a: seq<Node>, entry: Node, b: seq<Node>)
    requires IsList(head, a + [entry] + b)
    ensures Distinct(a + [entry]) && Distinct(b) && Apart(a + [entry], b) && Chain(a + [entry]) && Chain(b)
    ensures head !in a + [entry] && head !in b
    ensures Linked(entry, if b == [] then head else b[0])
    ensures Linked(head, (a + [entry])[0])
    ensures b != [] ==> Linked(b[|b| - 1], head)
  {
    var front := a + [entry];
    ListIsTied(head, front + b);
    DistinctConcat(front, b);
    if b != [] { ChainConcat(front, b); } else { assert front + b == front; }
  }

  /**
   * list_cut_position. An empty list, or a single entry with a foreign `entry`, is left alone, and then `list` too;
   * otherwise `entry` must be the head or one of the entries.
   */
  method CutPosition(list: Node, head: Node, entry: Node, ghost xs: seq<Node>)
    requires IsList(head, xs) && list != head && list !in xs
    requires |xs| <= 1 || entry in [head] + xs
    modifies list, head, xs
    ensures xs == [] || entry !in [head] + xs ==>
              IsList(head, xs) && unchanged(list)
    ensures xs != [] && entry == head ==> IsList(list, []) && IsList(head, xs)
    ensures forall k :: 0 <= k < |xs| && entry == xs[k] ==> IsList(list, xs[..k + 1]) && IsList(head, xs[k + 1..])
  {
    hide IsList;
    Neighbours(head, xs);
    var empty := IsEmpty(head, xs);
    if empty {
      return;
    }
    var singular := IsSingular(head, xs);
    Ends(head, xs);
    if singular && head.next != entry && head != entry {
      return;
    }
    if entry == head {
      Init(list);
    } else {
      ghost var k :| 0 <= k < |xs| && xs[k] == entry;
      assert xs[..k] + [entry] + xs[k + 1..] == xs && xs[..k] + [entry] == xs[..k + 1];
      OnlyOnce(head, xs, k);
      CutAt(list, head, entry, xs[..k], xs[k + 1..]);
    }
  }

  lemma OnlyOnce(head: Node, xs: seq<Node>, k: nat)
    requires IsList(head, xs) && k < |xs|
    ensures forall i :: 0 <= i < |xs| && xs[i] == xs[k] ==> i == k
  {
    ListIsTied(head, xs);
  }

  lemma Ends(head: Node, xs: seq<Node>)
    requires IsList(head, xs)
    ensures head.next == if xs == [] then head else xs[0]
    ensures head.prev == if xs == [] then head else xs[|xs| - 1]
  {
    ListIsTied(head, xs);
  }

  /** __list_splice between the head and its first entry, or between its last entry and the head. */
  method Join(list: Node, prev: Node, next: Node, ghost first: Node, ghost last: Node)
    requires list.next == first && list.prev == last && first != next && last != prev
    requires list !in {first, last, prev, next}
    modifies first`prev, prev`next, last`next, next`prev
    ensures Linked(prev, first) && Linked(last, next)
  {
    var front, back := list.next, list.prev;
    front.prev := prev;
    prev.next := front;
    back.next := next;
    next.prev := back;
  }

  lemma ApartNodes(list: Node, ys: seq<Node>, head: Node, xs: seq<Node>)
    requires Apart([list] + ys, [head] + xs)
    ensures list != head && list !in xs && head !in ys && Apart(ys, xs) && Apart(xs, ys)
  {
    assert list in [list] + ys && head in [head] + xs;
    assert forall n :: n in ys ==> n in [list] + ys;
    assert forall n :: n in xs ==> n in [head] + xs;
  }

  /** list_splice: all of `list` goes in front; its own head keeps its stale links. */
  method Splice(list: Node, head: Node, ghost ys: seq<Node>, ghost xs: seq<Node>)
    requires IsList(list, ys) && IsList(head, xs) && Apart([list] + ys, [head] + xs)
    modifies ys, head, xs
    ensures IsList(head, ys + xs)
    ensures list.next == old(list.next) && list.prev == old(list.prev)
  {
    hide IsList;
    ListIsTied(list, ys);
    ListIsTied(head, xs);
    ApartNodes(list, ys, head, xs);
    var empty := IsEmpty(list, ys);
    if !empty {
      Join(list, head, head.next, ys[0], ys[|ys| - 1]);
      ChainFrame(ys);
      if xs != [] { ChainFrame(xs); }
      Concatenated(head, ys, xs);
    } else {
      assert ys + xs == xs;
    }
  }

  /** list_splice_tail. */
  method SpliceTail(list: Node, head: Node, ghost ys: seq<Node>, ghost xs: seq<Node>)
    requires IsList(list, ys) && IsList(head, xs) && Apart([list] + ys, [head] + xs)
    modifies ys, head, xs
    ensures IsList(head, xs + ys)
    ensures list.next == old(list.next) && list.prev == old(list.prev)
  {
    hide IsList;
    ListIsTied(list, ys);
    ListIsTied(head, xs);
    ApartNodes(list, ys, head, xs);
    var empty := IsEmpty(list, ys);
    if !empty {
      Join(list, head.prev, head, ys[0], ys[|ys| - 1]);
      ChainFrame(ys);
      if xs != [] { ChainFrame(xs); }
      Concatenated(head, xs, ys);
    } else {
      assert xs + ys == xs;
    }
  }

  /** Two chains whose ends are tied to each other and to the head. */
  lemma Concatenated(head: Node, s: seq<Node>, t: seq<Node>)
    requires Distinct(s) && Distinct(t) && Apart(s, t) && head !in s && head !in t && Chain(s) && Chain(t)
    requires s + t != [] && Linked(head, (s + t)[0]) && Linked((s + t)[|s + t| - 1], head)
    requires s != [] && t != [] ==> Linked(s[|s| - 1], t[0])
    ensures IsList(head, s + t)
  {
    hide Distinct, Apart, Chain, IsList;
    assert s == [] ==> s + t == t;
    assert t == [] ==> s + t == s;
    if s != [] && t != [] { ChainConcat(s, t); }
    DistinctConcat(s, t);
    ListIsTied(head, s + t);
  }

  /** list_splice_init. */
  method SpliceInit(list: Node, head: Node, ghost ys: seq<Node>, ghost xs: seq<Node>)
    requires IsList(list, ys) && IsList(head, xs) && Apart([list] + ys, [head] + xs)
    modifies list, ys, head, xs
    ensures IsList(head, ys + xs) && IsList(list, [])
  {
    hide IsList;
    ApartNodes(list, ys, head, xs);
    Neighbours(list, ys);
    var empty := IsEmpty(list, ys);
    if !empty {
      Splice(list, head, ys, xs);
      Init(list);
    } else {
      assert ys + xs == xs;
    }
  }

  /** list_splice_tail_init. */
  method SpliceTailInit(list: Node, head: Node, ghost ys: seq<Node>, ghost xs: seq<Node>)
    requires IsList(list, ys) && IsList(head, xs) && Apart([list] + ys, [head] + xs)
    modifies list, ys, head, xs
    ensures IsList(head, xs + ys) && IsList(list, [])
  {
    hide IsList;
    ApartNodes(list, ys, head, xs);
    Neighbours(list, ys);
    var empty := IsEmpty(list, ys);
    if !empty {
      SpliceTail(list, head, ys, xs);
      Init(list);
    } else {
      assert xs + ys == xs;
    }
  }

  // ---- Whole programs ----

  /**
   * Cutting and then splicing back restores the list exactly when something was cut or `list` held nothing to begin
   * with: when nothing is cut, `list` is not emptied and its old entries are spliced in.
   */
  method CutThenSpliceInit(list: Node, head: Node, entry: Node, ghost xs: seq<Node>, ghost ys: seq<Node>)
    requires IsList(head, xs) && IsList(list, ys) && Apart([list] + ys, [head] + xs)
    requires |xs| <= 1 || entry in [head] + xs
    modifies list, ys, head, xs
    ensures IsList(list, [])
    ensures IsList(head, if xs != [] && entry in [head] + xs then xs else ys + xs)
    ensures IsList(head, xs) <==> (xs != [] && entry in [head] + xs) || ys == []
  {
    hide IsList, Distinct, Apart;
    ghost var a, b := CutInTwo(list, head, entry, xs, ys);
    SpliceInit(list, head, a, b);
    if xs == [] || entry !in [head] + xs { StillUnique(head, ys, xs); }
  }

  /** The two lists there are after a cut, whichever way it went. */
  method CutInTwo(list: Node, head: Node, entry: Node, ghost xs: seq<Node>, ghost ys: seq<Node>)
    returns (ghost a: seq<Node>, ghost b: seq<Node>)
    requires IsList(head, xs) && IsList(list, ys) && Apart([list] + ys, [head] + xs)
    requires |xs| <= 1 || entry in [head] + xs
    modifies list, head, xs
    ensures IsList(list, a) && IsList(head, b) && Apart([list] + a, [head] + b)
    ensures a + b == if xs != [] && entry in [head] + xs then xs else ys + xs
    ensures forall i :: 0 <= i < |a| ==> a[i] in xs || a[i] in ys
    ensures forall i :: 0 <= i < |b| ==> b[i] in xs
  {
    hide IsList, Distinct, Apart;
    Untouched(list, ys, head, xs);
    Neighbours(head, xs);
    CutPosition(list, head, entry, xs);
    a, b := ys, xs;
    if xs != [] && entry == head {
      a := [];
    } else if entry in xs {
      var k :| 0 <= k < |xs| && xs[k] == entry;
      a, b := xs[..k + 1], xs[k + 1..];
    }
    PartsApart(list, ys, head, xs, a, b);
  }

  lemma Untouched(list: Node, ys: seq<Node>, head: Node, xs: seq<Node>)
    requires IsList(list, ys) && Apart([list] + ys, [head] + xs)
    ensures list != head && list !in xs
    ensures forall i :: 0 <= i < |ys| ==> ys[i] !in xs && ys[i] != head && ys[i] != list
  {
    hide IsList;
    ApartNodes(list, ys, head, xs);
    Neighbours(list, ys);
  }

  lemma PartsApart(list: Node, ys: seq<Node>, head: Node, xs: seq<Node>, a: seq<Node>, b: seq<Node>)
    requires Apart([list] + ys, [head] + xs) && Distinct(xs) && head !in xs
    requires (b == xs && (a == ys || a == [])) || exists k :: 0 <= k <= |xs| && a == xs[..k] && b == xs[k..]
    ensures Apart([list] + a, [head] + b)
    ensures forall i :: 0 <= i < |a| ==> a[i] in xs || a[i] in ys
    ensures forall i :: 0 <= i < |b| ==> b[i] in xs
  {
    hide Distinct;
    ApartNodes(list, ys, head, xs);
    if b != xs {
      var k :| 0 <= k <= |xs| && a == xs[..k] && b == xs[k..];
      HalvesApart(list, head, xs, k);
    }
  }

  lemma StillUnique(head: Node, ys: seq<Node>, xs: seq<Node>)
    requires IsList(head, ys + xs)
    ensures IsList(head, xs) <==> ys == []
  {
    hide IsList;
    if IsList(head, xs) { ListIsUnique(head, ys + xs, xs); }
    assert ys == [] ==> ys + xs == xs;
  }

  lemma HalvesApart(list: Node, head: Node, xs: seq<Node>, k: nat)
    requires k <= |xs| && Distinct(xs) && head !in xs && list !in xs && list != head
    ensures Apart([list] + xs[..k], [head] + xs[k..])
  {
    assert xs[..k] + xs[k..] == xs;
    DistinctConcat(xs[..k], xs[k..]);
  }

  /** Rotating left `n` times brings the first `n` entries to the end, so a full turn restores the list. */
  method RotateTimes(head: Node, n: nat, ghost xs: seq<Node>)
    requires IsList(head, xs) && n <= |xs|
    modifies head, xs
    ensures IsList(head, xs[n..] + xs[..n])
  {
    hide IsList;
    var i := 0;
    assert xs[0..] + xs[..0] == xs;
    while i < n
      invariant 0 <= i <= n && IsList(head, xs[i..] + xs[..i])
    {
      ghost var now := xs[i..] + xs[..i];
      assert now[1..] + [now[0]] == xs[i + 1..] + xs[..i + 1];
      RotateLeft(head, now);
      i := i + 1;
    }
  }

  /** list_for_each: the walk meets every entry once, in order, and ends. */
  method ForEach(head: Node, ghost xs: seq<Node>) returns (visited: seq<Node>)
    requires IsList(head, xs)
    ensures visited == xs
  {
    ListIsTied(head, xs);
    visited := [];
    var pos := head.next;
    ghost var w := [head] + xs + [head];
    assert w[0].next == w[1];
    while pos != head
      invariant |visited| <= |xs| && visited == xs[..|visited|] && pos == w[|visited| + 1]
      decreases |xs| - |visited|
    {
      visited := visited + [pos];
      assert w[|visited|].next == w[|visited| + 1];
      pos := pos.next;
    }
  }
}
