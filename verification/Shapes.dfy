/**
 What the invariant says about the memory as a whole, and what it makes of two operations in a
 row or side by side.
 */
module Shapes {
  import opened KeyOrder
  import opened Towers
  import opened Levels
  import opened Links
  import opened SkipLists
  import opened Doubles
  import opened Mt19937
  import opened Blocks

  // ----- a level is the list without the low towers

  /** Following the pointers of level `i` from `x` one meets `nodes`, and then `home`. */
  ghost predicate Trail(x: Node, i: nat, nodes: seq<Node>, home: Node)
    reads x, x.next, nodes, set n | n in nodes :: n.next
  {
    && i < x.next.Length
    && if nodes == [] then x.next[i] == home
       else x.next[i] == nodes[0] && nodes[0] != home && Trail(nodes[0], i, nodes[1..], home)
  }

  /** The nodes of a sequence that record a height above `i`. */
  ghost function Tall(c: seq<Node>, i: nat): (t: seq<Node>)
    reads c
  {
    if c == [] then [] else (if c[0].sz > i then [c[0]] else []) + Tall(c[1..], i)
  }

  lemma {:induction false} TallSkips(c: seq<Node>, a: nat, b: nat, i: nat)
    requires a <= b <= |c| && forall j :: a <= j < b ==> c[j].sz <= i
    ensures Tall(c[a..], i) == Tall(c[b..], i)
    decreases b - a
  {
    if a < b {
      TallSkips(c, a + 1, b, i);
      assert c[a..][1..] == c[a + 1..];
    }
  }

  lemma TallHead(c: seq<Node>, a: nat, i: nat)
    requires a < |c| && c[a].sz > i
    ensures Tall(c[a..], i) == [c[a]] + Tall(c[a + 1..], i)
  {
    assert c[a..][1..] == c[a + 1..];
  }

  /** The link out of position `p` on level `i` of a well-formed list. */
  lemma Link(v: View, header: Node, p: nat, i: nat)
    requires Wf(v) && Owned(v) && Linked(v, i) && |v.c| == |v.a| == |v.h| && v.c[0] == header && p < |v.c| && i < v.h[p]
    ensures var r := NextAt(v.h, p, i);
      && v.c[p].next == v.a[p] && i < v.a[p].Length && v.a[p][i] == v.c[r] && (v.c[r] == header <==> r == 0)
    ensures forall s :: 0 <= s < |v.c| ==> v.c[s].sz == v.h[s]
  {
    var r := NextAt(v.h, p, i);
    assert v.c[r].next == v.a[r] && v.c[0].next == v.a[0];
  }

  lemma TrailCons(x: Node, i: nat, y: Node, nodes: seq<Node>, home: Node)
    requires i < x.next.Length && x.next[i] == y != home && Trail(y, i, nodes, home)
    ensures Trail(x, i, [y] + nodes, home)
  {
    assert ([y] + nodes)[1..] == nodes;
  }

  lemma {:induction false} TrailFrom(v: View, header: Node, p: nat, i: nat)
    requires Wf(v) && Owned(v) && Linked(v, i) && |v.c| == |v.a| == |v.h| && v.c[0] == header && p < |v.c| && i < v.h[p]
    ensures Trail(v.c[p], i, Tall(v.c[p + 1..], i), header)
    decreases |v.c| - p
  {
    var r := NextAt(v.h, p, i);
    Link(v, header, p, i);
    NextSkips(v.h, p, i);
    assert Tall([], i) == [] && (r == 0 ==> Trail(v.c[p], i, [], header));
    hide Wf, Owned, Linked, NextAt, Tall, Trail;
    if r == 0 {
      TallSkips(v.c, p + 1, |v.c|, i);
      assert v.c[|v.c|..] == [];
    } else {
      TallSkips(v.c, p + 1, r, i);
      TallHead(v.c, r, i);
      TrailFrom(v, header, r, i);
      TrailCons(v.c[p], i, v.c[r], Tall(v.c[r + 1..], i), header);
    }
  }

  /** Level `i` of a valid list goes from the header through exactly the nodes of height above
      `i`, in list order, and back to the header. */
  lemma LevelIsFilter(l: SkipList, i: nat)
    requires l.Valid() && i < l.maxlevel
    ensures |l.v.c| > 0 && Trail(l.header, i, Tall(l.v.c[1..], i), l.header)
  {
    SoundParts(l.v, l.cmp, l.header, l.maxlevel, l.curlevel, l.header.item);
    hide Sound, Trail, Tall, Wf, Owned;
    ALevel(l.v, i);
    TrailFrom(l.v, l.header, 0, i);
  }

  // ----- the two insertions side by side

  /** The lists hold the same items, in towers of the same heights. */
  ghost predicate Twins(s: SkipList, t: SkipList)
    reads s, t
  {
    && s.cmp == t.cmp && s.maxlevel == t.maxlevel && |s.v.c| > 0 && |t.v.c| > 0
    && s.v.h == t.v.h && s.Items() == t.Items()
  }

  /** Their generators are at the same point of the same sequence. */
  ghost predicate InStep(s: SkipList, t: SkipList)
    reads s.rng, t.rng
  {
    s.rng.words == t.rng.words && s.rng.Drawn() == t.rng.Drawn()
  }

  /** The lists have no array, generator or backward pointers in common. */
  ghost predicate Disjoint(s: SkipList, t: SkipList)
    reads s, t
  {
    && s != t && s.rng != t.rng && s.rng.mt != t.rng.mt && (s.back == null || s.back != t.back)
    && forall i, j :: 0 <= i < |s.v.a| && 0 <= j < |t.v.a| ==> s.v.a[i] != t.v.a[j]
  }

  lemma TopUnique(h: seq<nat>, top: nat, top': nat)
    requires Tallest(h, top) && Tallest(h, top')
    ensures top == top'
  {
  }

  /** Twins are linked alike: the links at the same place on the same level lead to the same
      place; and the other fields agree. */
  lemma TwinsLinked(s: SkipList, t: SkipList, p: nat, i: nat)
    requires s.Valid() && t.Valid() && Twins(s, t) && p < |s.v.c| && i < s.v.h[p]
    ensures |s.v.c| == |s.v.a| == |s.v.h| == |t.v.c| == |t.v.a| && s.v.a[p].Length == t.v.a[p].Length == s.v.h[p]
    ensures exists r :: 0 <= r < |s.v.c| && s.v.a[p][i] == s.v.c[r] && t.v.a[p][i] == t.v.c[r]
    ensures s.curlevel == t.curlevel && s.nodenum == t.nodenum
    ensures s.tail == s.v.c[s.nodenum] && t.tail == t.v.c[t.nodenum]
  {
    TwinParts(s, t);
    hide SkipList.Valid, Linked;
    TopUnique(s.v.h, s.curlevel, t.curlevel);
    assert i < s.v.h[0];
    ALevel(s.v, i);
    ALevel(t.v, i);
    Link(s.v, s.header, p, i);
    Link(t.v, t.header, p, i);
  }

  lemma TwinParts(s: SkipList, t: SkipList)
    requires s.Valid() && t.Valid() && Twins(s, t)
    ensures Wf(s.v) && Owned(s.v) && LinkedAll(s.v) && s.v.c[0] == s.header && s.v.h[0] == s.maxlevel
    ensures Wf(t.v) && Owned(t.v) && LinkedAll(t.v) && t.v.c[0] == t.header && t.v.h[0] == t.maxlevel
    ensures Tallest(s.v.h, s.curlevel) && Tallest(t.v.h, t.curlevel) && s.curlevel <= s.maxlevel
    ensures |s.v.c| == |t.v.c| && Counted(s.v, s.nodenum, s.tail) && Counted(t.v, t.nodenum, t.tail)
  {
    hide Linked, Sorted;
    assert |s.Items()| == |s.v.c| - 1 && |t.Items()| == |t.v.c| - 1;
  }

  /** Growing twins alike makes twins. */
  lemma GrowAlike(cmp: Comparator, v: View, x: Node, b: array<Node>, v': View, w: View, y: Node,
          d: array<Node>, w': View)
    requires |v.c| > 0 && |w.c| > 0 && ItemsOf(v.c[1..]) == ItemsOf(w.c[1..]) && v.h == w.h
    requires x.item == y.item && b.Length == d.Length
    requires Grown(v, PlaceIn(cmp, v.c, x.item), x, b, v') && Grown(w, PlaceIn(cmp, w.c, y.item), y, d, w')
    ensures |v'.c| > 0 && |w'.c| > 0 && ItemsOf(v'.c[1..]) == ItemsOf(w'.c[1..]) && v'.h == w'.h
  {
    var q := PlaceIn(cmp, v.c, x.item);
    ItemsGrow(v, q, x, b, v');
    ItemsGrow(w, q, y, d, w');
    InsertedUnique(v.h, q, b.Length, v'.h);
    InsertedUnique(w.h, q, d.Length, w'.h);
  }

  lemma GrownMembers(v: View, q: nat, x: Node, b: array<Node>, v': View)
    requires Grown(v, q, x, b, v')
    ensures forall j :: 0 <= j < |v'.c| ==> v'.c[j] in v.c || v'.c[j] == x
    ensures forall j :: 0 <= j < |v'.a| ==> v'.a[j] in v.a || v'.a[j] == b
  {
  }

  /** The one-pass insertion into one list and the two-pass insertion into its twin leave twins: all
      links on all levels correspond. */
  method BothWays(s: SkipList, x: Node, t: SkipList, y: Node)
    requires s.Valid() && s.Ready() && t.Valid() && t.Ready() && Twins(s, t) && InStep(s, t) && Disjoint(s, t)
    requires x !in s.v.c && y !in t.v.c && x !in t.v.c && y !in s.v.c && x != y && x.item == y.item
    modifies s, s.v.a, s.stat, s.back, s.rng, s.rng.mt, x, t, t.v.a, t.stat, t.back, t.rng, t.rng.mt, y
    ensures s.Valid() && s.Ready() && t.Valid() && t.Ready() && Twins(s, t) && InStep(s, t)
  {
    hide SkipList.Valid, SkipList.Ready, Rand.Drawn, HeightFrom, Grown, PlaceIn, LevelOf, ItemsOf;
    SameLevels(s, t);
    ghost var v, w := s.v, t.v;
    var status := s.InsertAD(x);
    assert t.v == w;
    GrownMembers(v, PlaceIn(s.cmp, v.c, x.item), x, x.next, s.v);
    assert y !in s.v.c && forall i, j :: 0 <= i < |s.v.a| && 0 <= j < |t.v.a| ==> s.v.a[i] != t.v.a[j];
    ghost var u := s.v;
    t.InsertTwoPass(y);
    assert s.v == u;
    GrowAlike(s.cmp, v, x, x.next, s.v, w, y, y.next, t.v);
  }

  lemma SameLevels(s: SkipList, t: SkipList)
    requires s.Valid() && t.Valid() && Twins(s, t)
    ensures s.curlevel == t.curlevel
  {
    TwinParts(s, t);
    hide SkipList.Valid;
    TopUnique(s.v.h, s.curlevel, t.curlevel);
  }

  // ----- a deletion undoes an insertion

  /** A new item comes first among its equals, so that is where a probe equal to it leads. */
  lemma PlaceOfNew(cmp: Comparator, v: View, x: Node, b: array<Node>, v': View, k: Item)
    requires |v.c| > 0 && Grown(v, PlaceIn(cmp, v.c, x.item), x, b, v') && Eq(cmp, x.item, k)
    ensures |v'.c| == |v'.a| > 0 && PlaceIn(cmp, v'.c, k) == PlaceIn(cmp, v.c, x.item)
      && Present(cmp, ItemsOf(v'.c[1..]), k)
    ensures var q := PlaceIn(cmp, v'.c, k); q < |v'.c| && v'.c[q] == x && v'.a[q] == b
  {
    var s, t := ItemsOf(v.c[1..]), ItemsOf(v'.c[1..]);
    var r := LowerBound(cmp, s, x.item);
    ItemsGrow(v, r + 1, x, b, v');
    forall j | 0 <= j < r ensures Less(cmp, t[j], k) {
      Transitive(cmp, s[j], x.item, k);
    }
    assert t[r] == x.item && Eq(cmp, t[r], k);
    LowerBoundUnique(cmp, t, k, r);
  }

  /** Taking out what was put in gives the old view back. */
  lemma ShrunkBack(v: View, q: nat, x: Node, b: array<Node>, v': View, u: View)
    requires Grown(v, q, x, b, v') && Grown(u, q, x, b, v')
    ensures u == v
  {
    InsertedUnique(v.c, q, x, v'.c);
    InsertedUnique(v.a, q, b, v'.a);
    InsertedUnique(v.h, q, b.Length, v'.h);
    InsertedUnique(u.c, q, x, v'.c);
    InsertedUnique(u.a, q, b, v'.a);
    InsertedUnique(u.h, q, b.Length, v'.h);
  }

  lemma DeletesNew(cmp: Comparator, v: View, x: Node, b: array<Node>, v': View, k: Item, dst: bool,
          status: Status, asked: seq<Node>, destroyed: seq<Node>, u: View)
    requires |v.c| > 0 && Grown(v, PlaceIn(cmp, v.c, x.item), x, b, v') && Eq(cmp, x.item, k)
    requires |v'.c| == |v'.a| > 0 && DeleteOutcome(v', cmp, k, None, false, dst, status, asked, destroyed, u)
    ensures u == v && status == Ok
  {
    PlaceOfNew(cmp, v, x, b, v', k);
    hide Grown, PlaceIn, Present;
    ShrunkBack(v, PlaceIn(cmp, v.c, x.item), x, b, v', u);
  }

  /** All pointers, as the view determines them. */
  ghost predicate Pointers(v: View)
    requires Wf(v)
    reads v.a
  {
    forall p, i {:trigger v.a[p][i]} :: 0 <= p < |v.a| && 0 <= i < v.a[p].Length ==> v.a[p][i] == v.c[NextAt(v.h, p, i)]
  }

  /** The memory of a valid list is determined by its view. */
  lemma Determined(l: SkipList)
    requires l.Valid()
    ensures |l.v.c| > 0 && Wf(l.v) && Pointers(l.v) && Tallest(l.v.h, l.curlevel) && Counted(l.v, l.nodenum, l.tail)
    ensures forall p :: 0 <= p < |l.v.h| ==> l.v.h[p] <= l.v.h[0]
  {
    var v := l.v;
    SoundParts(v, l.cmp, l.header, l.maxlevel, l.curlevel, l.header.item);
    hide SkipList.Valid, Sound, NextAt, LinkedAll;
    forall p, i | 0 <= p < |v.a| && 0 <= i < v.a[p].Length ensures v.a[p][i] == v.c[NextAt(v.h, p, i)] {
      ALevel(v, i);
    }
  }

  /** So are the backward pointers. */
  lemma BackDetermined(v: View, m: map<Cell, Node>, m': map<Cell, Node>)
    requires |v.c| == |v.h| > 0 && Backed(v, m) && Backed(v, m') && forall p :: 0 <= p < |v.h| ==> v.h[p] <= v.h[0]
    ensures m == m'
  {
    SameCells(v, m, m');
    SameCells(v, m', m);
    assert m.Keys == m'.Keys;
  }

  lemma SameCells(v: View, m: map<Cell, Node>, m': map<Cell, Node>)
    requires |v.c| == |v.h| > 0 && Backed(v, m) && Backed(v, m') && forall p :: 0 <= p < |v.h| ==> v.h[p] <= v.h[0]
    ensures forall c :: c in m ==> c in m' && m'[c] == m[c]
  {
    hide Before;
    forall c | c in m ensures c in m' && m'[c] == m[c] {
      var p :| 0 <= p < |v.c| && v.c[p] == c.n;
      assert c == Cell(v.c[p], c.i) && c.i < v.h[p];
      assert BackAt(v, m, c.i) && BackAt(v, m', c.i);
    }
  }

  /** In the doubly linked build forward and backward pointers are exact inverses on every level,
      all round the circle. */
  lemma Inverse(l: SkipList, p: nat, i: nat)
    requires l.Valid() && l.Ready() && l.back != null && p < |l.v.c| && i < l.v.c[p].next.Length
    ensures Cell(l.v.c[p].next[i], i) in l.back.prev && l.back.prev[Cell(l.v.c[p].next[i], i)] == l.v.c[p]
    ensures Cell(l.v.c[p], i) in l.back.prev && i < l.back.prev[Cell(l.v.c[p], i)].next.Length
    ensures l.back.prev[Cell(l.v.c[p], i)].next[i] == l.v.c[p]
  {
    var v, m := l.v, l.back.prev;
    SoundParts(v, l.cmp, l.header, l.maxlevel, l.curlevel, l.header.item);
    hide SkipList.Valid, Sound, NextAt, Before, LinkedAll;
    assert v.c[p].next == v.a[p];
    ALevel(v, i);
    var r, k := NextAt(v.h, p, i), Before(v.h, p, i);
    Link(v, l.header, p, i);
    Link(v, l.header, k, i);
    NextThenBefore(v.h, p, i);
    BeforeThenNext(v.h, p, i);
    assert BackAt(v, m, i);
    assert Cell(v.c[r], i) in m && Cell(v.c[p], i) in m;
  }

  /** An insertion followed by a deletion with an equal probe, even among equal nodes, restores
      every pointer, in both directions, and every field of the list. */
  method InsertThenDelete(l: SkipList, x: Node, probe: Node)
    requires l.Valid() && l.Ready() && x !in l.v.c && probe != l.header && Eq(l.cmp, x.item, probe.item)
    modifies l, l.v.a, l.stat, l.back, l.rng, l.rng.mt, x
    ensures l.Valid() && l.Ready() && l.v == old(l.v)
    ensures l.curlevel == old(l.curlevel) && l.nodenum == old(l.nodenum) && l.tail == old(l.tail)
    ensures forall p, i {:trigger l.v.a[p][i]} :: 0 <= p < |l.v.a| && 0 <= i < l.v.a[p].Length ==>
              l.v.a[p][i] == old(l.v.a[p][i])
    ensures l.back != null ==> l.back.prev == old(l.back.prev)
  {
    hide SkipList.Valid, Grown, PlaceIn, LevelOf, DeleteOutcome, NextAt, Tallest, Rand.Valid, Rand.Drawn, HeightFrom,
         Backed, Distinct;
    Determined(l);
    ghost var v, k, top := l.v, probe.item, l.curlevel;
    var status := l.InsertAD(x);
    ghost var v', b := l.v, x.next;
    GrownMembers(v, PlaceIn(l.cmp, v.c, x.item), x, b, v');
    var asked, destroyed;
    status, asked, destroyed := l.Delete(probe, None, false);
    PlaceOfNew(l.cmp, v, x, b, v', k);
    DeletesNew(l.cmp, v, x, b, v', k, l.dst, status, asked, destroyed, l.v);
    Determined(l);
    TopUnique(v.h, top, l.curlevel);
    if l.back != null {
      BackDetermined(v, l.back.prev, old(l.back.prev));
    }
  }

  // ----- the update of all equal nodes

  /** The update of all equal nodes updates exactly the run from `q` to `e` if that is a single node,
      unless it has a single successor and the comparator takes the header for an equal; or if a
      longer run ends the list and the comparator takes the header for an equal. */
  lemma UpdatesAllIff(cmp: Comparator, c: seq<Node>, q: nat, e: nat, k: Item, nilEq: bool, calls: seq<Node>)
    requires RunIs(cmp, c, q, e, k) && q < e && Updated(c, q, e, UpAll, nilEq, calls)
    ensures calls == c[q..e] <==> if e - q == 1 then !(|c| - e == 1 && nilEq) else e == |c| && nilEq
  {
    assert |calls| == UpdatedCount(e - q, |c| - e, nilEq);
    if |calls| == e - q {
      assert calls == c[q..e];
    }
  }

  /** Which nodes it updates: of a longer run all but the last one, which is left out unless it ends the
      list and the comparator takes the header for an equal; of a run of one that node, and the one
      after it too if it is the list's last and the comparator takes the header for an equal. */
  lemma UpdatesAre(c: seq<Node>, q: nat, e: nat, nilEq: bool, calls: seq<Node>)
    requires 1 <= q < e <= |c| && Updated(c, q, e, UpAll, nilEq, calls)
    ensures e - q > 1 && !(e == |c| && nilEq) ==> calls == c[q..e - 1]
    ensures e - q > 1 && e == |c| && nilEq ==> calls == c[q..]
    ensures e - q == 1 && !(|c| - e == 1 && nilEq) ==> calls == [c[q]]
    ensures e - q == 1 && |c| - e == 1 && nilEq ==> calls == [c[q], c[e]]
  {
  }

  lemma AtFront(cmp: Comparator, v: View, x: Node, b: array<Node>, v': View)
    requires |v.c| > 0 && (|v.c| > 1 ==> !Less(cmp, v.c[1].item, x.item))
    requires Grown(v, PlaceIn(cmp, v.c, x.item), x, b, v')
    ensures v'.c == [v.c[0], x] + v.c[1..]
  {
    assert PlaceIn(cmp, v.c, x.item) == 1;
  }

  lemma HeightsAtFront(cmp: Comparator, v: View, x: Node, b: array<Node>, v': View)
    requires |v.c| == |v.h| > 0 && (|v.c| > 1 ==> !Less(cmp, v.c[1].item, x.item))
    requires Grown(v, PlaceIn(cmp, v.c, x.item), x, b, v')
    ensures v'.h == [v.h[0], b.Length] + v.h[1..]
  {
    assert PlaceIn(cmp, v.c, x.item) == 1;
  }

  /** Inserts a node that comes first, at a given height. */
  method PushFrontAt(l: SkipList, k: Item, lev: nat) returns (x: Node)
    requires l.Valid() && l.Ready() && |l.v.c| == |l.v.h| > 0 && (|l.v.c| > 1 ==> !Less(l.cmp, l.v.c[1].item, k))
    requires 1 <= lev <= l.maxlevel
    modifies l, l.v.a, l.stat, l.back
    ensures l.Valid() && l.Ready() && fresh(x) && x.item == k && l.v.c == [old(l.v.c)[0], x] + old(l.v.c)[1..]
    ensures l.v.h == [old(l.v.h)[0], lev] + old(l.v.h)[1..]
    ensures forall j :: 0 <= j < |l.v.a| ==> l.v.a[j] in old(l.v.a) || fresh(l.v.a[j])
  {
    hide SkipList.Valid, Grown, PlaceIn, Rand.Valid, Mirrored;
    ghost var v := l.v;
    x := new Node(k);
    assert l.v == v;
    l.InsertPlain(x, lev);
    AtFront(l.cmp, v, x, x.next, l.v);
    HeightsAtFront(l.cmp, v, x, x.next, l.v);
    GrownMembers(v, PlaceIn(l.cmp, v.c, x.item), x, x.next, l.v);
  }

  /** A list of three nodes, the one in the middle lower than the others. */
  method TallLowTall(cmp: Comparator, a: Item, b: Item, stat: MStat, double: bool)
    returns (l: SkipList, first: Node, second: Node, third: Node)
    requires Less(cmp, a, b)
    modifies stat
    ensures fresh(l) && l.cmp == cmp && l.Valid() && l.Ready() && l.v.c == [l.header, first, second, third]
    ensures l.v.h == [MAXLEVELS, 2, 1, 2] && l.stat == stat && (l.back != null <==> double)
    ensures first.item == a && second.item == b && third.item == b
  {
    hide SkipList.Valid, SkipList.Ready, Rand.Drawn, SeedState, SeededWords;
    var made, err := Init(MAXLEVELS, cmp, true, stat, double);
    l := made;
    third := PushFrontAt(l, b, 2);
    assert l.v.c[1].item == b;
    assert Through(b, b, b) && !Less(cmp, b, b);
    second := PushFrontAt(l, b, 1);
    assert l.v.c[1].item == b;
    assert Through(a, b, b) && !Less(cmp, b, a);
    first := PushFrontAt(l, a, 2);
  }

  /** Inserts a node that comes first. */
  method PushFront(l: SkipList, k: Item) returns (x: Node)
    requires l.Valid() && l.Ready() && |l.v.c| > 0 && (|l.v.c| > 1 ==> !Less(l.cmp, l.v.c[1].item, k))
    modifies l, l.v.a, l.stat, l.back, l.rng, l.rng.mt
    ensures l.Valid() && l.Ready() && fresh(x) && x.item == k && l.v.c == [old(l.v.c)[0], x] + old(l.v.c)[1..]
    ensures forall j :: 0 <= j < |l.v.a| ==> l.v.a[j] in old(l.v.a) || fresh(l.v.a[j])
  {
    hide SkipList.Valid, SkipList.Ready, Grown, PlaceIn, LevelOf, Rand.Drawn, HeightFrom;
    ghost var v := l.v;
    x := new Node(k);
    assert l.v == v;
    var status := l.InsertAD(x);
    AtFront(l.cmp, v, x, x.next, l.v);
    GrownMembers(v, PlaceIn(l.cmp, v.c, x.item), x, x.next, l.v);
  }

  /** A list of two equal nodes and a greater one. */
  method TwoAndOne(cmp: Comparator, a: Item, b: Item, stat: MStat, double: bool)
    returns (l: SkipList, first: Node, second: Node, last: Node)
    requires Less(cmp, a, b)
    modifies stat
    ensures fresh(l) && l.cmp == cmp && l.Valid() && l.Ready() && l.v.c == [l.header, first, second, last]
    ensures fresh(l.v.a) && fresh(l.rng) && fresh(l.rng.mt) && (l.back != null ==> fresh(l.back)) && l.stat == stat
    ensures first.item == a && second.item == a && last.item == b && first != second
  {
    hide SkipList.Valid, SkipList.Ready, Rand.Drawn, SeedState, SeededWords;
    var made, err := Init(MAXLEVELS, cmp, true, stat, double);
    l := made;
    last := PushFront(l, b);
    assert l.v.c[1].item == b;
    assert Through(a, b, b) && !Less(cmp, b, a);
    second := PushFront(l, a);
    assert l.v.c[1].item == a;
    first := PushFront(l, a);
  }

  lemma RunOfTwo(cmp: Comparator, c: seq<Node>, a: Item, b: Item)
    requires Less(cmp, a, b) && |c| == 4 && c[1].item == c[2].item == a && c[3].item == b
    ensures PlaceIn(cmp, c, a) == 1 && Present(cmp, ItemsOf(c[1..]), a) && RunEnd(cmp, c, 1, a) == 3
  {
    assert Through(a, a, a) && Eq(cmp, a, a);
    assert Through(b, a, b) && !Eq(cmp, b, a);
    assert ItemsOf(c[1..])[0] == a;
    assert RunEnd(cmp, c, 3, a) == 3 && RunEnd(cmp, c, 2, a) == 3;
  }

  lemma TwoUpdated(c: seq<Node>, nilEq: bool, calls: seq<Node>)
    requires |c| == 4 && Updated(c, 1, 3, UpAll, nilEq, calls)
    ensures calls == [c[1]]
  {
  }

  /** On that list the update of all nodes equal to `a` leaves the second one out, whatever the
      comparator makes of the header. */
  method SecondLeftOut(cmp: Comparator, a: Item, b: Item, nilEq: bool, stat: MStat, double: bool)
    returns (l: SkipList, first: Node, second: Node, calls: seq<Node>)
    requires Less(cmp, a, b)
    modifies stat
    ensures l.Valid() && l.Ready() && |l.v.c| == 4 && l.v.c[..3] == [l.header, first, second]
      && first.item == second.item == a
    ensures calls == [first] && second !in calls
  {
    hide SkipList.Valid, SkipList.Ready, Rand.Drawn, HeightFrom, PlaceIn, Present, RunEnd, Updated, Grown;
    var last;
    l, first, second, last := TwoAndOne(cmp, a, b, stat, double);
    ghost var c := l.v.c;
    RunOfTwo(cmp, c, a, b);
    var probe := new Node(a);
    assert l.v.c == c;
    var status;
    status, calls := l.InsertI(probe, UpAll, nilEq);
    TwoUpdated(c, nilEq, calls);
  }
}
