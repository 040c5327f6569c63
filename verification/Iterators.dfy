/**
 Iterators: walking a list on any level, and walking the equal nodes that a search has found.
 The list does not change while an iterator is in use.
 */
module Iterators {
  import opened KeyOrder
  import opened Towers
  import opened Links
  import opened SkipLists
  import opened Doubles
  import opened Cursors
  import opened Blocks
  import opened Mt19937
  import Shapes

  lemma ShownParts(l: SkipList, u: View)
    requires Holds(l, u)
    ensures Wf(u) && Owned(u) && LinkedAll(u) && |u.c| > 0 && u.c[0] == l.header && u.h[0] == l.maxlevel
    ensures 1 <= l.curlevel <= l.maxlevel && Tallest(u.h, l.curlevel)
  {
    hide Sound;
    SoundParts(u, l.cmp, l.header, l.maxlevel, l.curlevel, l.header.item);
  }

  /** The link out of position `p` on level `i`. */
  lemma Leads(l: SkipList, u: View, p: nat, i: nat)
    requires Holds(l, u) && p < |u.a| && i < u.h[p]
    ensures Wf(u) && |u.c| == |u.a| == |u.h| && u.a[p].Length == u.h[p] && i < u.h[0]
    ensures var r := NextAt(u.h, p, i);
      && u.a[p][i] == u.c[r] && u.c[r].next == u.a[r] && u.c[r].sz == u.h[r]
      && (u.c[r] == l.header <==> r == 0)
  {
    ShownParts(l, u);
    hide Holds;
    assert i < u.h[0] by {
      assert p > 0 ==> u.h[p] <= l.curlevel;
    }
    assert Linked(u, i);
    l.HeaderIsFirst(u, NextAt(u.h, p, i));
  }

  lemma Standing(l: SkipList, u: View, p: nat)
    requires Holds(l, u) && p < |u.c|
    ensures |u.c| == |u.a| == |u.h| && u.c[0] == l.header
    ensures u.c[p].next == u.a[p] && u.c[p].sz == u.h[p] >= 1 && u.a[p].Length == u.h[p]
  {
    hide Holds;
    ShownParts(l, u);
  }

  lemma OnePlace(u: View, p: nat, r: nat)
    requires Wf(u) && Owned(u) && p < |u.c| && r < |u.c|
    ensures u.c[p] == u.c[r] <==> p == r
  {
    assert u.c[p].next == u.a[p] && u.c[r].next == u.a[r];
  }

  /** The walk up to the terminator. */
  function Upto(w: seq<nat>, end: Option<nat>): seq<nat> {
    if w == [] || end == Some(w[0]) then [] else [w[0]] + Upto(w[1..], end)
  }

  /** The positions that an iterator will yet visit on level `i`. */
  function Ahead(h: seq<nat>, at: nat, i: nat, end: Option<nat>): (w: seq<nat>)
    requires at < |h|
  {
    Upto(Walk(h, at, i), end)
  }

  /** The nodes are those at the positions `w`. */
  ghost predicate Visits(c: seq<Node>, w: seq<nat>, nodes: seq<Node>) {
    |nodes| == |w| && forall j :: 0 <= j < |w| ==> w[j] < |c| && nodes[j] == c[w[j]]
  }

  lemma VisitsMore(c: seq<Node>, w: seq<nat>, nodes: seq<Node>, p: nat)
    requires Visits(c, w, nodes) && p < |c|
    ensures Visits(c, w + [p], nodes + [c[p]])
  {
  }

  ghost predicate Joins(past: seq<nat>, rest: seq<nat>, w: seq<nat>) {
    w == past + rest
  }

  lemma JoinsNone(w: seq<nat>)
    ensures Joins([], w, w)
  {
  }

  lemma JoinsMore(past: seq<nat>, p: nat, rest: seq<nat>, w: seq<nat>)
    requires Joins(past, [p] + rest, w)
    ensures Joins(past + [p], rest, w)
  {
  }

  lemma JoinsAll(past: seq<nat>, w: seq<nat>)
    requires Joins(past, [], w)
    ensures w == past
  {
  }

  lemma AheadStep(h: seq<nat>, at: nat, i: nat, end: Option<nat>)
    requires at < |h|
    ensures var r := NextAt(h, at, i);
      Ahead(h, at, i, end) == if r == 0 || end == Some(r) then [] else [r] + Ahead(h, r, i, end)
  {
  }

  /** The address of one of the arrays of a node. */
  datatype Slot = NoSlot | NextArray(n: Node) | PrevArray(n: Node)

  /** The array is that of the node at the position. */
  predicate Named(c: seq<Node>, slot: Slot, way: Way) {
    match way
    case Unset => slot == NoSlot
    case NextOf(p) => p < |c| && slot == NextArray(c[p])
    case PrevOf(p) => p < |c| && slot == PrevArray(c[p])
  }

  /** Entry `i` of the array is `node`. */
  ghost predicate Reads(l: SkipList, slot: Slot, i: nat, node: Node)
    reads l.back, if slot == NoSlot then {} else {slot.n, slot.n.next}
  {
    match slot
    case NoSlot => false
    case NextArray(n) => i < n.next.Length && n.next[i] == node
    case PrevArray(n) => l.back != null && Cell(n, i) in l.back.prev && l.back.prev[Cell(n, i)] == node
  }

  lemma ShapeOf(l: SkipList, u: View)
    requires Holds(l, u)
    ensures |u.c| == |u.a| == |u.h| && Shape(u.h)
  {
    ShownParts(l, u);
    hide Holds, Owned, LinkedAll;
    forall p | 0 <= p < |u.h| ensures 1 <= u.h[p] <= u.h[0] {
    }
  }

  /** The entry that an array of a list has for level `i`. */
  method EntryOf(l: SkipList, slot: Slot, i: nat, ghost u: View, ghost way: Way) returns (node: Node)
    requires Holds(l, u) && Named(u.c, slot, way) && i < Size(u.h, way)
    requires way.PrevOf? ==> l.back != null && Mirrored(l.back, u)
    ensures var r := LeadsTo(u.h, way, i); r < |u.c| == |u.h| && node == u.c[r] && (node == l.header <==> r == 0)
    ensures node.sz == u.h[LeadsTo(u.h, way, i)] && Reads(l, slot, i, node)
  {
    hide Holds, NextAt, Before, Backed, Distinct;
    ShapeOf(l, u);
    Lands(u.h, way, i);
    Standing(l, u, way.p);
    Standing(l, u, LeadsTo(u.h, way, i));
    match slot {
      case NextArray(n) =>
        Leads(l, u, way.p, i);
        node := n.next[i];
      case PrevArray(n) =>
        GoesBack(l, u, way.p, i);
        node := l.back.prev[Cell(n, i)];
    }
  }

  /** The backward pointer of position `p` on level `i`. */
  lemma GoesBack(l: SkipList, u: View, p: nat, i: nat)
    requires Holds(l, u) && l.back != null && Mirrored(l.back, u) && p < |u.c| == |u.h| && i < u.h[p]
    ensures i < u.h[0]
    ensures var r := Before(u.h, p, i);
      r < |u.c| && Cell(u.c[p], i) in l.back.prev && l.back.prev[Cell(u.c[p], i)] == u.c[r]
      && (u.c[r] == l.header <==> r == 0)
  {
    ShapeOf(l, u);
    ShownParts(l, u);
    hide Holds, Before, Owned, LinkedAll, Distinct;
    assert u.h[p] <= u.h[0];
    assert BackAt(u, l.back.prev, i);
    var r := Before(u.h, p, i);
    Standing(l, u, r);
    Standing(l, u, 0);
    OnePlace(u, r, 0);
  }

  class Iterator {
    var next: Slot
    var prev: Slot
    var prevlev: nat
    var term: Node?
    const list: SkipList
    ghost var now: Spot
    ghost var end: Option<nat>

    /** The arrays that the iterator keeps are those of `now`, and it stops at position `end`, which
        may be the header's. */
    ghost predicate Valid(u: View)
      reads this, list, list.back, u.c, u.a
    {
      && Holds(list, u) && |u.a| == |u.h| == |u.c| > 0
      && Named(u.c, next, now.next) && Named(u.c, prev, now.prev) && prevlev == now.lev
      && (now.next.PrevOf? || now.prev.PrevOf? ==> list.back != null && Mirrored(list.back, u))
      && (end.Some? <==> term != null) && (end.Some? ==> end.value < |u.c| && term == u.c[end.value])
    }

    /** The iterator came here going on, so going on is safe. */
    ghost predicate Forth(u: View)
      reads this
    {
      now.next == Unset || (now.next.NextOf? && now.lev <= Size(u.h, now.next))
    }

    /** Starts at the node `n`, which is not visited itself, or at the header. */
    constructor Set(l: SkipList, n: Node?, ghost u: View, ghost p: nat)
      requires Holds(l, u) && Mirrored(l.back, u) && p < |u.c| && (if n == null then p == 0 else n == u.c[p])
      ensures Valid(u) && Forth(u) && list == l && end == None && now.next == NextOf(p) && now.lev == u.h[p]
      ensures l.back != null ==> now == Start(u.h, p)
      ensures prev == if l.back != null then PrevArray(u.c[p]) else NoSlot
    {
      hide Holds, Mirrored;
      Standing(l, u, 0);
      Standing(l, u, p);
      var start: Node := if n == null then l.header else n;
      next := NextArray(start);
      prev := if l.back != null then PrevArray(start) else NoSlot;
      prevlev := start.sz;
      term := null;
      list := l;
      now := Spot(NextOf(p), if l.back != null then PrevOf(p) else Unset, u.h[p]);
      end := None;
    }

    /** Starts at the array that leads to the first of the nodes found, to stop at `t`.  The other
        array is not set. */
    constructor SetFound(l: SkipList, n: Slot, t: Node?, ghost u: View, ghost w: Way, ghost e: Option<nat>)
      requires Holds(l, u) && |u.a| == |u.h| == |u.c| > 0 && Named(u.c, n, w)
      requires w == Unset || (w.NextOf? && 1 <= Size(u.h, w))
      requires (e.Some? <==> t != null) && (e.Some? ==> e.value < |u.c| && t == u.c[e.value])
      ensures Valid(u) && Forth(u) && list == l && now == Spot(w, Unset, 1) && end == e
    {
      hide Holds;
      prevlev := 1;
      next := n;
      prev := NoSlot;
      term := t;
      list := l;
      now, end := Spot(w, Unset, 1), e;
    }

    /** The next node on level `lev`, counted from 1; null at the end, or if the level is not allowed.
        The source reads the entry even if the array has none; here the call ends, and `wild` says
        so. */
    method GetNext(lev: nat, ghost u: View) returns (node: Node?, wild: bool, ghost found: Found)
      requires Valid(u)
      modifies this`next, this`prev, this`prevlev, this`now
      ensures Valid(u) && (now, found) == GoOn(u.h, old(now), end, lev) && wild == (found == Wild)
      ensures if found.At? then found.p < |u.c| && node == u.c[found.p] else node == null
      ensures old(Forth(u)) ==> !wild && Forth(u)
      ensures wild <==> 1 <= lev <= old(prevlev) && old(next) != NoSlot && lev > old(next).n.sz
      ensures node == null ==> next == old(next) && prev == old(prev) && prevlev == old(prevlev)
      ensures node != null ==> next == NextArray(node) && prev == old(next) && prevlev == node.sz
      ensures node != null ==> 1 <= lev <= old(prevlev) && Reads(list, old(next), lev - 1, node)
      ensures node != null ==> node != list.header && node != term
      ensures node == null && !wild && 1 <= lev <= old(prevlev) && old(next) != NoSlot ==>
                Reads(list, old(next), lev - 1, list.header) || (term != null && Reads(list, old(next), lev - 1, term))
    {
      hide Holds, NextAt, Before, Mirrored;
      node, wild, found := null, false, Nothing;
      if !(1 <= lev <= prevlev) || next == NoSlot {
        return;
      }
      ShapeOf(list, u);
      Standing(list, u, now.next.p);
      if lev > next.n.sz {
        return null, true, Wild;
      }
      Lands(u.h, now.next, lev - 1);
      ghost var r := LeadsTo(u.h, now.next, lev - 1);
      var entry := EntryOf(list, next, lev - 1, u, now.next);
      Same(entry, r, u);
      if entry == list.header || (term != null && entry == term) {
        return;
      }
      node, found := entry, At(r);
      prev := next;
      prevlev := entry.sz;
      next := NextArray(entry);
      now := Spot(NextOf(r), now.next, u.h[r]);
    }

    /** The node met is the terminator exactly if it is at its position. */
    lemma Same(node: Node, r: nat, u: View)
      requires Valid(u) && r < |u.c| && node == u.c[r]
      ensures end == Some(r) <==> term != null && node == term
    {
      ShownParts(list, u);
      if end.Some? {
        hide Holds, LinkedAll, Tallest;
        OnePlace(u, r, end.value);
      }
    }

    /** The previous node on level `lev`, in the doubly linked build; the terminator plays no part. */
    method GetPrev(lev: nat, ghost u: View) returns (node: Node?, wild: bool, ghost found: Found)
      requires Valid(u) && list.back != null && Mirrored(list.back, u)
      modifies this`next, this`prev, this`prevlev, this`now
      ensures Valid(u) && (now, found) == GoBack(u.h, old(now), lev) && wild == (found == Wild)
      ensures if found.At? then found.p < |u.c| && node == u.c[found.p] else node == null
      ensures wild <==> 1 <= lev <= old(prevlev) && (old(prev) == NoSlot || lev > old(prev).n.sz)
      ensures node == null ==> next == old(next) && prev == old(prev) && prevlev == old(prevlev)
      ensures node != null ==> next == old(prev) && prev == PrevArray(node) && prevlev == node.sz
      ensures node != null ==> 1 <= lev <= old(prevlev) && Reads(list, old(prev), lev - 1, node) && node != list.header
      ensures node == null && !wild && 1 <= lev <= old(prevlev) ==> Reads(list, old(prev), lev - 1, list.header)
    {
      hide Holds, NextAt, Before, Mirrored;
      node, wild, found := null, false, Nothing;
      if !(1 <= lev <= prevlev) {
        return;
      }
      if prev == NoSlot {
        return null, true, Wild;
      }
      ShapeOf(list, u);
      Standing(list, u, now.prev.p);
      if lev > prev.n.sz {
        return null, true, Wild;
      }
      Lands(u.h, now.prev, lev - 1);
      ghost var r := LeadsTo(u.h, now.prev, lev - 1);
      var entry := EntryOf(list, prev, lev - 1, u, now.prev);
      if entry == list.header {
        return;
      }
      node, found := entry, At(r);
      next := prev;
      prevlev := entry.sz;
      prev := PrevArray(entry);
      now := Spot(now.prev, PrevOf(r), u.h[r]);
    }

    /** Takes nodes on level `lev` until there are no more. */
    method Drain(lev: nat, ghost u: View) returns (nodes: seq<Node>)
      requires Valid(u) && Forth(u) && now.next != Unset && 1 <= lev <= prevlev
      modifies this`next, this`prev, this`prevlev, this`now
      ensures Valid(u) && Forth(u) && now.next.NextOf? && now.next.p < |u.h| && 1 <= lev <= prevlev
      ensures old(now).next.p < |u.h| && Visits(u.c, Ahead(u.h, old(now).next.p, lev - 1, end), nodes)
      ensures Ahead(u.h, now.next.p, lev - 1, end) == []
    {
      hide Holds, Ahead, NextAt, Visits, Mirrored, Joins;
      nodes := [];
      ghost var at := now.next.p;
      ghost var w, i := Ahead(u.h, at, lev - 1, end), lev - 1;
      ghost var past: seq<nat> := [];
      NoVisits(u.c);
      JoinsNone(w);
      while true
        invariant Valid(u) && Forth(u) && now.next == NextOf(at) && at < |u.h| && i + 1 == lev <= prevlev
        invariant Joins(past, Ahead(u.h, at, i, end), w) && Visits(u.c, past, nodes)
        decreases |u.c| - at
      {
        AheadStep(u.h, at, i, end);
        var node, wild;
        ghost var found;
        node, wild, found := GetNext(lev, u);
        if node == null {
          break;
        }
        at := found.p;
        VisitsMore(u.c, past, nodes, at);
        JoinsMore(past, at, Ahead(u.h, at, i, end), w);
        past, nodes := past + [at], nodes + [node];
      }
      JoinsAll(past, w);
    }
  }

  lemma NoVisits(c: seq<Node>)
    ensures Visits(c, [], [])
  {
  }

  // ----- what the iterators yield

  /** Makes an iterator that starts at the node `n`, or at the header. */
  method SetIterator(l: SkipList, n: Node?, ghost u: View, ghost p: nat) returns (it: Iterator)
    requires Holds(l, u) && Mirrored(l.back, u) && p < |u.c| && (if n == null then p == 0 else n == u.c[p])
    modifies l.stat
    ensures fresh(it) && it.Valid(u) && it.Forth(u) && it.list == l && |u.a| == |u.h| == |u.c| && it.end == None
    ensures it.now.next == NextOf(p) && it.now.lev == u.h[p] && (l.back != null ==> it.now == Start(u.h, p))
    ensures l.stat.alloc_count == old(l.stat.alloc_count) + 1 && l.stat.freed_count == old(l.stat.freed_count)
  {
    hide Holds, Mirrored;
    Standing(l, u, p);
    l.stat.Alloc();
    it := new Iterator.Set(l, n, u, p);
  }

  method DestroyIterator(it: Iterator)
    modifies it.list.stat
    ensures it.list.stat.freed_count == old(it.list.stat.freed_count) + 1
    ensures it.list.stat.alloc_count == old(it.list.stat.alloc_count)
  {
    it.list.stat.Free();
  }

  /** Every node that reaches level `lev`, in order. */
  method DrainLevel(l: SkipList, lev: nat, ghost u: View) returns (nodes: seq<Node>)
    requires Holds(l, u) && Mirrored(l.back, u) && 1 <= lev <= l.maxlevel
    modifies l.stat
    ensures |u.h| > 0 && Visits(u.c, Reaching(u.h, 1, lev - 1), nodes)
  {
    hide Holds, Reaching, Walk, NextAt, Visits, Wf, Owned, LinkedAll, Tallest, Mirrored;
    ShownParts(l, u);
    var it := SetIterator(l, null, u, 0);
    nodes := it.Drain(lev, u);
    WalkIsReaching(u.h, 0, lev - 1);
    UptoNone(Walk(u.h, 0, lev - 1));
  }

  lemma {:induction false} UptoNone(w: seq<nat>)
    ensures Upto(w, None) == w
  {
    if w != [] {
      UptoNone(w[1..]);
    }
  }

  // ----- the search for all equal nodes

  /** What a search for all nodes equal to `k` hands to the iterator: where the run starts and
      what comes after it. */
  ghost predicate RunFound(l: SkipList, u: View, k: Item, addr: Slot, term: Node?)
    requires |u.c| > 0
    reads l
  {
    var q := PlaceIn(l.cmp, u.c, k);
    var e := RunEnd(l.cmp, u.c, q, k);
    && |u.c| == |u.a| == |u.h| && RunIs(l.cmp, u.c, q, e, k)
    && if q < e then addr == NextArray(u.c[q - 1]) && term == (if e < |u.c| then u.c[e] else l.header)
       else addr == NoSlot && term == null
  }

  lemma RunThere(l: SkipList, u: View, k: Item)
    requires Holds(l, u)
    ensures |u.c| > 0 && var q := PlaceIn(l.cmp, u.c, k); RunIs(l.cmp, u.c, q, RunEnd(l.cmp, u.c, q, k), k)
    ensures Splits(l.cmp, u.c, PlaceIn(l.cmp, u.c, k), k)
  {
    hide RunIs, PlaceIn, Wf, Owned, LinkedAll, Tallest;
    SoundParts(u, l.cmp, l.header, l.maxlevel, l.curlevel, k);
    RunAtPlace(l.cmp, u.c, k);
  }

  /** The link on level 0. */
  lemma Ground(l: SkipList, u: View, p: nat)
    requires Holds(l, u) && p < |u.c|
    ensures |u.c| == |u.a| && u.c[p].next == u.a[p] && u.a[p].Length > 0
    ensures u.a[p][0] == if p + 1 < |u.c| then u.c[p + 1] else l.header
    ensures p + 1 < |u.c| ==> u.c[p + 1] != l.header
  {
    Standing(l, u, p);
    ShownParts(l, u);
    hide Holds;
    GroundLink(u, p, l.curlevel);
    if p + 1 < |u.c| {
      l.HeaderIsFirst(u, p + 1);
    }
  }

  lemma GroundAdvance(l: SkipList, u: View, q: nat)
    requires Holds(l, u) && 1 <= q <= |u.c|
    ensures Wf(u) && Owned(u) && |u.c| == |u.h| && u.c[0] == l.header && u.h[0] > 0 && Linked(u, 0)
    ensures PrevAt(u.h, q, 0) == q - 1
  {
    ShownParts(l, u);
    hide Holds;
    ALevel(u, 0);
    PrevOnGround(u.h, q, l.curlevel);
  }

  /** The scan of level 0 for the run of nodes equal to the probe. */
  method SearchAll(l: SkipList, probe: Node, ghost u: View) returns (addr: Slot, term: Node?)
    requires Holds(l, u) && probe != l.header
    ensures |u.c| > 0 && RunFound(l, u, probe.item, addr, term)
  {
    hide Holds, PlaceIn, RunEnd, Splits, Wf, Owned, Linked, NextAt;
    RunThere(l, u, probe.item);
    ghost var q := PlaceIn(l.cmp, u.c, probe.item);
    ghost var e := RunEnd(l.cmp, u.c, q, probe.item);
    GroundAdvance(l, u, q);
    ghost var p;
    var x;
    x, p := l.Advance(l.header, 0, probe, u, 0, q);
    Ground(l, u, p);
    if x.next[0] != l.header && l.IsEq(x.next[0], probe) {
      addr := NextArray(x);
      x, p := x.next[0], p + 1;
      Ground(l, u, p);
      while x.next[0] != l.header && l.IsEq(x.next[0], probe)
        invariant q <= p < e && x == u.c[p] && x.next.Length > 0
        invariant x.next[0] == if p + 1 < |u.c| then u.c[p + 1] else l.header
        invariant p + 1 < |u.c| ==> u.c[p + 1] != l.header
        decreases e - p
      {
        x, p := x.next[0], p + 1;
        Ground(l, u, p);
      }
      term := x.next[0];
    } else {
      addr, term := NoSlot, null;
    }
  }

  /** Where an iterator over the run from `q` to `e` stops. */
  function Stop(q: nat, e: nat, n: nat): Option<nat> {
    if q == e then None else if e < n then Some(e) else Some(0)
  }

  lemma EmptyRun(l: SkipList, u: View, k: Item)
    requires Holds(l, u)
    ensures |u.c| == l.nodenum + 1
    ensures l.nodenum == 0 ==> RunFound(l, u, k, NoSlot, null)
  {
    RunThere(l, u, k);
  }

  lemma RunInside(l: SkipList, u: View, k: Item, addr: Slot, term: Node?)
    requires |u.c| > 0 && RunFound(l, u, k, addr, term)
    ensures var q := PlaceIn(l.cmp, u.c, k); var e := RunEnd(l.cmp, u.c, q, k);
      && 1 <= q <= e <= |u.c| == |u.a| && RunIs(l.cmp, u.c, q, e, k)
      && if q < e then addr == NextArray(u.c[q - 1]) && term == (if e < |u.c| then u.c[e] else l.header)
         else addr == NoSlot && term == null
  {
  }

  /** Looks for all nodes equal to the probe and gives an iterator over them. */
  method SearchALL(l: SkipList, probe: Node, ghost u: View) returns (status: Status, it: Iterator)
    requires Holds(l, u) && probe != l.header
    modifies l.stat
    ensures |u.c| == |u.a| == |u.h| > 0 && fresh(it) && it.Valid(u) && it.Forth(u) && it.list == l
    ensures l.stat.alloc_count == old(l.stat.alloc_count) + 1 && l.stat.freed_count == old(l.stat.freed_count)
    ensures var q := PlaceIn(l.cmp, u.c, probe.item); var e := RunEnd(l.cmp, u.c, q, probe.item);
      && RunIs(l.cmp, u.c, q, e, probe.item) && it.end == Stop(q, e, |u.c|)
      && it.now == Spot(if q < e then NextOf(q - 1) else Unset, Unset, 1)
      && status == if q < e then KeyFound else KeyNotFound
  {
    hide Holds, RunIs, PlaceIn, RunEnd, RunFound;
    EmptyRun(l, u, probe.item);
    l.stat.Alloc();
    var addr, term := NoSlot, null;
    if l.nodenum != 0 {
      addr, term := SearchAll(l, probe, u);
    }
    ghost var q := PlaceIn(l.cmp, u.c, probe.item);
    ghost var e := RunEnd(l.cmp, u.c, q, probe.item);
    RunInside(l, u, probe.item, addr, term);
    Standing(l, u, if q < e then q - 1 else 0);
    Standing(l, u, 0);
    ghost var w := if q < e then NextOf(q - 1) else Unset;
    it := new Iterator.SetFound(l, addr, term, u, w, Stop(q, e, |u.c|));
    status := if addr != NoSlot then KeyFound else KeyNotFound;
  }

  /** The positions from `q` up to `e`. */
  function Range(q: nat, e: nat): (w: seq<nat>)
    requires q <= e
    ensures |w| == e - q && forall j :: 0 <= j < |w| ==> w[j] == q + j
    decreases e - q
  {
    if q == e then [] else [q] + Range(q + 1, e)
  }

  /** On level 0 an iterator over a run goes through the run and no further. */
  lemma {:induction false} AheadInRun(h: seq<nat>, top: nat, q: nat, e: nat)
    requires Tallest(h, top) && 1 <= q <= e <= |h|
    ensures Ahead(h, q - 1, 0, if e < |h| then Some(e) else Some(0)) == Range(q, e)
    decreases e - q
  {
    hide Tallest, NextAt, Ahead;
    NextOnGround(h, q - 1, top);
    AheadStep(h, q - 1, 0, if e < |h| then Some(e) else Some(0));
    if q < e {
      AheadInRun(h, top, q + 1, e);
    }
  }

  lemma VisitsRange(c: seq<Node>, q: nat, e: nat, nodes: seq<Node>)
    requires q <= e <= |c| && Visits(c, Range(q, e), nodes)
    ensures nodes == c[q..e]
  {
    assert forall j :: 0 <= j < e - q ==> nodes[j] == c[Range(q, e)[j]] == c[q..e][j];
  }

  /** All the nodes equal to the probe, in list order; after that there is nothing more. */
  method FindAll(l: SkipList, probe: Node, ghost u: View) returns (nodes: seq<Node>, more: Node?)
    requires Holds(l, u) && probe != l.header
    modifies l.stat
    ensures |u.c| > 0 && more == null
    ensures var q := PlaceIn(l.cmp, u.c, probe.item); var e := RunEnd(l.cmp, u.c, q, probe.item);
      RunIs(l.cmp, u.c, q, e, probe.item) && nodes == u.c[q..e]
  {
    hide Holds, Wf, Owned, LinkedAll, Tallest, Visits, Ahead, NextAt, PlaceIn, RunEnd;
    var status, it := SearchALL(l, probe, u);
    ghost var q := PlaceIn(l.cmp, u.c, probe.item);
    ghost var e := RunEnd(l.cmp, u.c, q, probe.item);
    nodes := [];
    if status == KeyFound {
      ShownParts(l, u);
      nodes := it.Drain(1, u);
      AheadInRun(u.h, l.curlevel, q, e);
      VisitsRange(u.c, q, e, nodes);
      AheadStep(u.h, it.now.next.p, 0, it.end);
    }
    var wild;
    ghost var found;
    more, wild, found := it.GetNext(1, u);
  }

  /** On a higher level the iterator over a run may pass its end: from position `p` of the run it
      does so exactly when the node it should stop at is too low and a taller one follows. */
  lemma {:induction false} PassesEndIff(h: seq<nat>, p: nat, e: nat, i: nat)
    requires p < e < |h|
    ensures (exists x :: x in Ahead(h, p, i, Some(e)) && x >= e) <==> h[e] <= i && NextAt(h, e, i) != 0
    decreases e - p
  {
    var r, w := NextAt(h, p, i), Ahead(h, p, i, Some(e));
    AheadStep(h, p, i, Some(e));
    NextSkips(h, p, i);
    hide Ahead, NextAt;
    if r == 0 {
      NextUnique(h, e, i, 0);
    } else if r > e {
      NextUnique(h, e, i, r);
      assert r in w;
    } else if r < e {
      PassesEndIff(h, r, e, i);
      assert forall x :: x in w <==> x == r || x in Ahead(h, r, i, Some(e));
    }
  }

  /** Such heights: the header, the node found, a low one where the iterator should stop, a tall
      one that it goes on to. */
  lemma PassesEndHere()
    ensures Ahead([2, 2, 1, 2], 1, 0, Some(2)) == [] && Ahead([2, 2, 1, 2], 1, 1, Some(2)) == [3]
  {
    var h := [2, 2, 1, 2];
    NextUnique(h, 1, 0, 2);
    NextUnique(h, 1, 1, 3);
    NextUnique(h, 3, 1, 0);
    hide NextAt, Ahead;
    AheadStep(h, 1, 0, Some(2));
    AheadStep(h, 1, 1, Some(2));
    AheadStep(h, 3, 1, Some(2));
  }

  lemma StepsPast(h: seq<nat>, top: nat, q: nat)
    requires Tallest(h, top) && 1 <= q && q + 2 < |h| && h[q] >= 2 && h[q + 1] == 1 && h[q + 2] >= 2
    ensures NextAt(h, q - 1, 0) == q && NextAt(h, q, 1) == q + 2
    ensures Ahead(h, q, 1, Some(q + 1)) != [] && Ahead(h, q, 1, Some(q + 1))[0] == q + 2
  {
    NextOnGround(h, q - 1, top);
    NextUnique(h, q, 1, q + 2);
    AheadStep(h, q, 1, Some(q + 1));
  }

  /** The code does pass it: an iterator over the only node equal to the probe, followed by a low
      node and a tall one, goes on to the tall one, which is not equal. */
  method WalksPast(l: SkipList, probe: Node, ghost u: View) returns (first: Node?, second: Node?)
    requires Holds(l, u) && probe != l.header && |u.c| == |u.h| > 0
    requires var q := PlaceIn(l.cmp, u.c, probe.item);
      && q + 2 < |u.c| && RunEnd(l.cmp, u.c, q, probe.item) == q + 1
      && u.h[q] >= 2 && u.h[q + 1] == 1 && u.h[q + 2] >= 2
    modifies l.stat
    ensures var q := PlaceIn(l.cmp, u.c, probe.item);
      && first == u.c[q] && second == u.c[q + 2] && !Eq(l.cmp, u.c[q + 2].item, probe.item)
  {
    hide Holds, Wf, Owned, LinkedAll, Tallest, Ahead, NextAt, PlaceIn, RunEnd;
    ghost var q := PlaceIn(l.cmp, u.c, probe.item);
    ShownParts(l, u);
    StepsPast(u.h, l.curlevel, q);
    var status, it := SearchALL(l, probe, u);
    var wild;
    ghost var found;
    first, wild, found := it.GetNext(1, u);
    second, wild, found := it.GetNext(2, u);
  }

  /** And on such a list, made by insertions at these heights. */
  method WalksPastHere(cmp: Comparator, a: Item, b: Item, stat: MStat, double: bool)
    returns (l: SkipList, first: Node?, second: Node?)
    requires Less(cmp, a, b)
    modifies stat
    ensures l.Valid() && |l.v.c| == 4 && first == l.v.c[1] && second == l.v.c[3]
    ensures l.v.c[1].item == a && l.v.c[3].item == b
  {
    hide SkipList.Valid, SkipList.Ready, Holds, PlaceIn, RunEnd;
    var x, y, z;
    l, x, y, z := Shapes.TallLowTall(cmp, a, b, stat, double);
    ghost var u := l.v;
    var probe := new Node(a);
    assert l.v == u;
    RunOfOne(cmp, u.c, a, b);
    HoldsIt(l);
    first, second := WalksPast(l, probe, u);
  }

  lemma HoldsIt(l: SkipList)
    requires l.Valid()
    ensures Holds(l, l.v) && |l.v.c| == |l.v.h| > 0
  {
  }

  lemma RunOfOne(cmp: Comparator, c: seq<Node>, a: Item, b: Item)
    requires Less(cmp, a, b) && |c| == 4 && c[1].item == a && c[2].item == c[3].item == b
    ensures PlaceIn(cmp, c, a) == 1 && RunEnd(cmp, c, 1, a) == 2
  {
    assert Through(a, a, a) && Eq(cmp, a, a);
    assert Through(b, a, b) && !Eq(cmp, b, a);
    assert ItemsOf(c[1..])[0] == a;
    assert RunEnd(cmp, c, 2, a) == 2;
  }

  /** The calls: three times on on the lowest level, once back on the second. */
  method OnAndBack(it: Iterator, ghost u: View) returns (third: Node?, wild: bool)
    requires it.Valid(u) && it.list.back != null && Mirrored(it.list.back, u) && it.end == None
    requires |u.h| == |u.c| == 4 && u.h[0] >= 2 && u.h[1..] == [2, 1, 2] && it.now == Start(u.h, 0)
    modifies it
    ensures third == u.c[3] && wild
  {
    hide Holds, Mirrored, Reads, Named, GoOn, GoBack, Start;
    WildHere(u.h);
    var first, second, node;
    ghost var found;
    first, wild, found := it.GetNext(1, u);
    second, wild, found := it.GetNext(1, u);
    third, wild, found := it.GetNext(1, u);
    node, wild, found := it.GetPrev(2, u);
  }

  /** In the doubly linked build, having gone on to the last node of that list on the lowest level, going
      back on the second level passes the check and reads outside the array of the low node. */
  method ReadsOutside(cmp: Comparator, a: Item, b: Item, stat: MStat) returns (l: SkipList, third: Node?, wild: bool)
    requires Less(cmp, a, b)
    modifies stat
    ensures l.Valid() && |l.v.c| == 4 && third == l.v.c[3] && wild
  {
    hide SkipList.Valid, Holds, Mirrored, Rand.Valid;
    var x, y, z;
    l, x, y, z := Shapes.TallLowTall(cmp, a, b, stat, true);
    HoldsIt(l);
    var it := SetIterator(l, null, l.v, 0);
    third, wild := OnAndBack(it, l.v);
  }
}
