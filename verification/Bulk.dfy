/**
 Copying, joining and intersecting lists.
 */
module Bulk {
  import opened KeyOrder
  import opened Towers
  import opened Levels
  import opened Links
  import opened SkipLists
  import opened Runs
  import opened Mt19937

  /** The view `u` of another list has no array in common with `t`. */
  ghost predicate Apart(u: View, t: SkipList)
    reads t
  {
    forall i, j :: 0 <= i < |u.a| && 0 <= j < |t.v.a| ==> u.a[i] != t.v.a[j]
  }

  lemma Counts(l: SkipList)
    requires l.Valid()
    ensures |l.v.c| == l.nodenum + 1 && |l.Items()| == l.nodenum && Sorted(l.cmp, l.Items())
  {
  }

  /** The list `s`, of view `u`, is valid and out of reach of what happens to `t`. */
  ghost predicate Safe(s: SkipList, u: View, t: SkipList)
    reads s, u.c, u.a, t
  {
    s != t && Holds(s, u) && Apart(u, t)
  }

  lemma Hold(l: SkipList)
    requires l.Valid()
    ensures Holds(l, l.v) && |l.v.c| == |l.v.h| > 0
  {
  }

  lemma HeldValid(l: SkipList, u: View)
    requires Holds(l, u)
    ensures l.v == u && l.Valid()
  {
  }

  /** Where a walk along level 0 goes. */
  lemma Walks(l: SkipList, u: View, k: nat)
    requires Holds(l, u) && k < |u.c|
    ensures u.c[0] == l.header && u.c[k].next.Length > 0
    ensures u.c[k].next[0] == if k + 1 < |u.c| then u.c[k + 1] else l.header
    ensures k + 1 < |u.c| ==> u.c[k + 1] != l.header
  {
    SoundParts(u, l.cmp, l.header, l.maxlevel, l.curlevel, l.header.item);
    hide Sound;
    GroundLink(u, k, l.curlevel);
    if k + 1 < |u.c| {
      l.HeaderIsFirst(u, k + 1);
    }
  }

  /** What one insertion of `item`, at height `lev` if at all, makes of the list `w`.  The nodes it
      had stay, in order. */
  ghost predicate OneIn(cmp: Comparator, w: View, item: Item, mode: Mode, lev: nat, v: View) {
    && |w.c| == |w.h| > 0 && |v.c| == |v.h| > 0
    && (if mode == ND && Present(cmp, ItemsOf(w.c[1..]), item)
        then ItemsOf(v.c[1..]) == ItemsOf(w.c[1..]) && v.h == w.h
        else
          && ItemsOf(v.c[1..]) == Insert(cmp, ItemsOf(w.c[1..]), item)
          && v.h == InsertAt(w.h, PlaceIn(cmp, w.c, item), lev))
    && Subseq(w.c, v.c)
  }

  /** The arrays a list now has are old ones or new. */
  twostate predicate OldOrNew(target: SkipList)
    reads target
  {
    forall j :: 0 <= j < |target.v.a| ==> target.v.a[j] in old(target.v.a) || fresh(target.v.a[j])
  }

  lemma GrownIsOneIn(cmp: Comparator, w: View, x: Node, b: array<Node>, v: View)
    requires |w.c| > 0 && Grown(w, PlaceIn(cmp, w.c, x.item), x, b, v)
    ensures OneIn(cmp, w, x.item, AD, b.Length, v) && |v.c| == |w.c| + 1
    ensures !Present(cmp, ItemsOf(w.c[1..]), x.item) ==> OneIn(cmp, w, x.item, ND, b.Length, v)
    ensures forall j :: 0 <= j < |v.a| ==> v.a[j] in w.a || v.a[j] == b
  {
    var q := PlaceIn(cmp, w.c, x.item);
    ItemsGrow(w, q, x, b, v);
    SubseqInserted(w.c, q, x, v.c);
    InsertedUnique(w.h, q, b.Length, v.h);
  }

  lemma SameIsOneIn(cmp: Comparator, v: View, item: Item, lev: nat)
    requires |v.c| == |v.h| > 0 && Present(cmp, ItemsOf(v.c[1..]), item)
    ensures OneIn(cmp, v, item, ND, lev, v)
    ensures forall j :: 0 <= j < |v.a| ==> v.a[j] in v.a
  {
    SubseqSame(v.c);
  }

  /** The one-pass insertion of a node. */
  method AddPlain(target: SkipList, node: Node)
    requires target.Valid() && target.Ready() && node !in target.v.c
    modifies target, target.v.a, target.stat, target.back, target.rng, target.rng.mt, node
    ensures target.Valid() && target.Ready() && OldOrNew(target) && target.Grew()
    ensures OneIn(target.cmp, old(target.v), node.item, AD, old(target.NextHeight()), target.v)
  {
    hide SkipList.Valid, SkipList.Ready, Rand.Drawn, HeightFrom, Sound, Counted, LevelOf, Present, Grown, PlaceIn,
      OneIn;
    ghost var w := target.v;
    Hold(target);
    var status := target.InsertAD(node);
    GrownIsOneIn(target.cmp, w, node, node.next, target.v);
  }

  /** Inserts a copy of one item by the one-pass insertion. */
  method CopyPlain(target: SkipList, item: Item)
    requires target.Valid() && target.Ready()
    modifies target, target.v.a, target.stat, target.back, target.rng, target.rng.mt
    ensures target.Valid() && target.Ready() && OldOrNew(target) && target.Grew()
    ensures OneIn(target.cmp, old(target.v), item, AD, old(target.NextHeight()), target.v)
  {
    hide SkipList.Valid, SkipList.Ready, Rand.Drawn, HeightFrom, OneIn;
    ghost var w := target.v;
    var node := new Node(item);
    assert target.v == w;
    AddPlain(target, node);
  }

  /** The two-pass insertion of a node that may not repeat. */
  method AddND(target: SkipList, node: Node) returns (status: Status)
    requires target.Valid() && target.Ready() && node !in target.v.c
    modifies target, target.v.a, target.stat, target.back, target.rng, target.rng.mt, node
    ensures target.Valid() && target.Ready() && OldOrNew(target) && target.Grew()
    ensures OneIn(target.cmp, old(target.v), node.item, ND, old(target.NextHeight()), target.v)
    ensures |old(target.v.c)| > 0
    ensures status == if Present(target.cmp, ItemsOf(old(target.v.c)[1..]), node.item) then DuplicateKey else Ok
  {
    hide SkipList.Valid, SkipList.Ready, Rand.Drawn, HeightFrom, Sound, Counted, LevelOf, Present, Grown, PlaceIn,
      OneIn;
    ghost var w := target.v;
    ghost var lev := target.NextHeight();
    Hold(target);
    status := target.InsertND(node);
    if status == DuplicateKey {
      SameIsOneIn(target.cmp, w, node.item, lev);
    } else {
      GrownIsOneIn(target.cmp, w, node, node.next, target.v);
    }
  }

  /** The two-pass insertion of a node that may repeat. */
  method AddAD(target: SkipList, node: Node)
    requires target.Valid() && target.Ready() && node !in target.v.c
    modifies target, target.v.a, target.stat, target.back, target.rng, target.rng.mt, node
    ensures target.Valid() && target.Ready() && OldOrNew(target) && target.Grew()
    ensures OneIn(target.cmp, old(target.v), node.item, AD, old(target.NextHeight()), target.v)
    ensures |old(target.v.c)| > 0
  {
    hide SkipList.Valid, SkipList.Ready, Rand.Drawn, HeightFrom, Sound, Counted, LevelOf, Present, Grown, PlaceIn,
      OneIn;
    ghost var w := target.v;
    target.InsertTwoPass(node);
    GrownIsOneIn(target.cmp, w, node, node.next, target.v);
  }

  /** Inserts a copy of one item by the two-pass insertion. */
  method CopyI(target: SkipList, item: Item, mode: Mode) returns (status: Status, node: Node)
    requires target.Valid() && target.Ready() && (mode == AD || mode == ND)
    modifies target, target.v.a, target.stat, target.back, target.rng, target.rng.mt
    ensures target.Valid() && target.Ready() && OldOrNew(target) && target.Grew()
    ensures OneIn(target.cmp, old(target.v), item, mode, old(target.NextHeight()), target.v)
    ensures fresh(node) && node.item == item
    ensures |old(target.v.c)| > 0
    ensures status == if mode == ND
      && Present(target.cmp, ItemsOf(old(target.v.c)[1..]), item) then DuplicateKey else Ok
  {
    hide SkipList.Valid, SkipList.Ready, Rand.Drawn, HeightFrom, OneIn, Present;
    ghost var w := target.v;
    node := new Node(item);
    assert target.v == w;
    if mode == ND {
      status := AddND(target, node);
    } else {
      AddAD(target, node);
      status := Ok;
    }
  }

  // ----- the same beside lists that must not change

  method CopyPlainBeside(target: SkipList, item: Item, ghost s1: SkipList, ghost u1: View,
          ghost s2: SkipList, ghost u2: View)
    requires target.Valid() && target.Ready() && Safe(s1, u1, target) && Safe(s2, u2, target)
    modifies target, target.v.a, target.stat, target.back, target.rng, target.rng.mt
    ensures target.Valid() && target.Ready() && OldOrNew(target) && target.Grew()
    ensures OneIn(target.cmp, old(target.v), item, AD, old(target.NextHeight()), target.v)
    ensures Safe(s1, u1, target) && Safe(s2, u2, target)
  {
    hide SkipList.Valid, SkipList.Ready, Rand.Drawn, HeightFrom, Holds, OneIn;
    CopyPlain(target, item);
  }

  method CopyIBeside(target: SkipList, item: Item, mode: Mode, ghost s: SkipList, ghost u: View)
    returns (status: Status, node: Node)
    requires target.Valid() && target.Ready() && (mode == AD || mode == ND) && Safe(s, u, target)
    modifies target, target.v.a, target.stat, target.back, target.rng, target.rng.mt
    ensures target.Valid() && target.Ready() && OldOrNew(target) && target.Grew()
    ensures OneIn(target.cmp, old(target.v), item, mode, old(target.NextHeight()), target.v)
    ensures node.item == item && |old(target.v.c)| > 0
    ensures status == if mode == ND
      && Present(target.cmp, ItemsOf(old(target.v.c)[1..]), item) then DuplicateKey else Ok
    ensures Safe(s, u, target)
  {
    hide SkipList.Valid, SkipList.Ready, Rand.Drawn, HeightFrom, Holds, OneIn, Present;
    status, node := CopyI(target, item, mode);
  }

  // ----- copying

  /** The list `w` becomes `v` when the first `k` items of `s` go into it one by one. */
  ghost predicate Went(cmp: Comparator, w: View, s: seq<Item>, k: nat, mode: Mode, v: View) {
    && |w.c| > 0 && |v.c| > 0 && k <= |s|
    && ItemsOf(v.c[1..]) == (if mode == ND then InsertAllAbsent(cmp, ItemsOf(w.c[1..]), s[..k])
                             else InsertAll(cmp, ItemsOf(w.c[1..]), s[..k]))
    && Subseq(w.c, v.c)
  }

  lemma WentNone(cmp: Comparator, s: seq<Item>, mode: Mode, v: View)
    requires |v.c| > 0
    ensures Went(cmp, v, s, 0, mode, v)
  {
    SubseqSame(v.c);
    assert s[..0] == [];
  }

  lemma WentOneMore(cmp: Comparator, w: View, w': View, s: seq<Item>, k: nat, mode: Mode, lev: nat, v: View)
    requires Went(cmp, w, s, k, mode, w') && k < |s| && OneIn(cmp, w', s[k], mode, lev, v)
    ensures Went(cmp, w, s, k + 1, mode, v)
  {
    hide InsertAll, InsertAllAbsent, Insert, Present, Subseq, ItemsOf;
    var t := ItemsOf(w.c[1..]);
    assert s[..k + 1] == s[..k] + [s[k]];
    InsertAllOneMore(cmp, t, s[..k], s[k]);
    InsertAllAbsentOneMore(cmp, t, s[..k], s[k]);
    SubseqTrans(w.c, w'.c, v.c);
  }

  /** The copying loop. */
  method CopyAll(source: SkipList, target: SkipList, ghost u: View, ghost s: seq<Item>)
    requires target.Valid() && target.Ready() && Safe(source, u, target) && |u.c| > 0 && |target.v.c| > 0
    requires s == ItemsOf(u.c[1..])
    modifies target, target.v.a, target.stat, target.back, target.rng, target.rng.mt
    ensures target.Valid() && target.Ready() && Safe(source, u, target)
      && Went(target.cmp, old(target.v), s, |s|, AD, target.v)
    ensures target.Grew() && OldOrNew(target)
  {
    hide SkipList.Valid, SkipList.Ready, Rand.Drawn, HeightFrom, Insert, InsertAll, Holds, Apart, Went, OneIn;
    Walks(source, u, 0);
    WentNone(target.cmp, s, AD, target.v);
    var x := source.header.next[0];
    var k: nat := 0;
    while x != source.header
      invariant k <= |s| && Safe(source, u, target) && target.Valid() && target.Ready()
      invariant x == if k < |s| then u.c[k + 1] else source.header
      invariant k < |s| ==> x != source.header
      invariant Went(target.cmp, old(target.v), s, k, AD, target.v)
      invariant OldOrNew(target) && target.Grew()
      decreases |s| - k
    {
      ghost var w', lev := target.v, target.NextHeight();
      CopyPlainBeside(target, x.item, source, u, source, u);
      WentOneMore(target.cmp, old(target.v), w', s, k, AD, lev, target.v);
      Walks(source, u, k + 1);
      x := x.next[0];
      k := k + 1;
    }
  }

  /** Copies a list, node by node, by the one-pass insertion. */
  method Copy(source: SkipList, target: SkipList)
    requires source.Valid() && target.Valid() && target.Ready() && source != target && Apart(source.v, target)
    modifies target, target.v.a, target.stat, target.back, target.rng, target.rng.mt
    ensures source.Valid() && target.Valid() && target.Ready() && source.v == old(source.v) && Apart(source.v, target)
    ensures target.Items() == InsertAll(target.cmp, old(target.Items()), source.Items())
    ensures Subseq(old(target.v.c), target.v.c) && target.Grew() && OldOrNew(target)
  {
    Hold(source);
    Hold(target);
    ghost var u, w, s := source.v, target.v, source.Items();
    Counts(source);
    hide SkipList.Valid, SkipList.Ready, Rand.Drawn, HeightFrom, InsertAll, Holds, Apart, Went;
    CopyAll(source, target, u, s);
    HeldValid(source, u);
    WentAll(target.cmp, w, s, target.v);
  }

  lemma WentUpTo(cmp: Comparator, w: View, s: seq<Item>, k: nat, mode: Mode, v: View)
    requires Went(cmp, w, s, k, mode, v)
    ensures |w.c| > 0 && |v.c| > 0 && k <= |s| && Subseq(w.c, v.c)
    ensures ItemsOf(v.c[1..]) == (if mode == ND then InsertAllAbsent(cmp, ItemsOf(w.c[1..]), s[..k])
                                  else InsertAll(cmp, ItemsOf(w.c[1..]), s[..k]))
  {
  }

  lemma WentAll(cmp: Comparator, w: View, s: seq<Item>, v: View)
    requires Went(cmp, w, s, |s|, AD, v)
    ensures |w.c| > 0 && |v.c| > 0 && Subseq(w.c, v.c)
    ensures ItemsOf(v.c[1..]) == InsertAll(cmp, ItemsOf(w.c[1..]), s)
  {
    assert s[..|s|] == s;
  }

  // ----- joining

  lemma OneInCounts(cmp: Comparator, w: View, item: Item, mode: Mode, lev: nat, v: View)
    requires OneIn(cmp, w, item, mode, lev, v)
    ensures |v.c| == |w.c| + if mode == ND && Present(cmp, ItemsOf(w.c[1..]), item) then 0 else 1
  {
    assert |ItemsOf(v.c[1..])| == |v.c| - 1;
  }

  /** The copies of the first `k` items of `s` that `w` had no room for. */
  ghost predicate Thrown(cmp: Comparator, w: View, s: seq<Item>, k: nat, mode: Mode, discarded: seq<Node>) {
    && |w.c| > 0 && k <= |s|
    && ItemsOf(discarded) == if mode == ND then Refused(cmp, ItemsOf(w.c[1..]), s[..k]) else []
  }

  lemma ThrownNone(cmp: Comparator, w: View, s: seq<Item>, mode: Mode)
    requires |w.c| > 0
    ensures Thrown(cmp, w, s, 0, mode, [])
  {
    assert s[..0] == [];
  }

  lemma ThrownOneMore(cmp: Comparator, w: View, w': View, s: seq<Item>, k: nat, mode: Mode, discarded: seq<Node>,
          node: Node)
    requires k < |s| && Went(cmp, w, s, k, mode, w') && Thrown(cmp, w, s, k, mode, discarded) && node.item == s[k]
    ensures |w'.c| > 0
    ensures Thrown(cmp, w, s, k + 1, mode,
                   if mode == ND && Present(cmp, ItemsOf(w'.c[1..]), s[k]) then discarded + [node] else discarded)
  {
    hide InsertAll, InsertAllAbsent, Present, Subseq, Refused;
    assert s[..k + 1] == s[..k] + [s[k]];
    RefusedOneMore(cmp, ItemsOf(w.c[1..]), s[..k], s[k]);
    ItemsOfOneMore(discarded, node);
  }

  lemma ItemsOfOneMore(c: seq<Node>, x: Node)
    ensures ItemsOf(c + [x]) == ItemsOf(c) + [x.item]
  {
  }

  lemma ThrownUpTo(cmp: Comparator, w: View, s: seq<Item>, k: nat, mode: Mode, discarded: seq<Node>)
    requires Thrown(cmp, w, s, k, mode, discarded)
    ensures |w.c| > 0 && k <= |s|
    ensures ItemsOf(discarded) == if mode == ND then Refused(cmp, ItemsOf(w.c[1..]), s[..k]) else []
  {
  }

  /** One more node of the source, inserted or refused. */
  lemma JoinedOneMore(cmp: Comparator, w: View, w': View, s: seq<Item>, k: nat, mode: Mode, discarded: seq<Node>,
          node: Node, lev: nat, v: View)
    requires k < |s| && Went(cmp, w, s, k, mode, w') && Thrown(cmp, w, s, k, mode, discarded) && node.item == s[k]
    requires OneIn(cmp, w', s[k], mode, lev, v) && |w'.c| > 0
    ensures Went(cmp, w, s, k + 1, mode, v)
    ensures var refused := mode == ND && Present(cmp, ItemsOf(w'.c[1..]), s[k]);
      && Thrown(cmp, w, s, k + 1, mode, if refused then discarded + [node] else discarded)
      && |v.c| == |w'.c| + if refused then 0 else 1
  {
    hide Went, Thrown, OneIn, Present;
    ThrownOneMore(cmp, w, w', s, k, mode, discarded, node);
    WentOneMore(cmp, w, w', s, k, mode, lev, v);
    OneInCounts(cmp, w', s[k], mode, lev, v);
  }

  /** A refusal leaves the items as they are. */
  lemma JoinStops(cmp: Comparator, w: View, w': View, s: seq<Item>, k: nat, lev: nat, v: View)
    requires k < |s| && Went(cmp, w, s, k, ND, w') && OneIn(cmp, w', s[k], ND, lev, v)
    requires |w'.c| > 0 && Present(cmp, ItemsOf(w'.c[1..]), s[k])
    ensures Went(cmp, w, s, k, ND, v) && |v.c| == |w'.c| && Present(cmp, ItemsOf(v.c[1..]), s[k])
  {
    hide InsertAll, InsertAllAbsent, Insert, Present, Subseq;
    OneInCounts(cmp, w', s[k], ND, lev, v);
    SubseqTrans(w.c, w'.c, v.c);
  }

  /** One round of the joining loop.  A copy whose key is already there goes to the node destroyer
      instead; a null function is called if there is none. */
  method JoinOne(source: SkipList, target: SkipList, mode: Mode, item: Item, discarded: seq<Node>, ghost u: View,
          ghost w: View, ghost s: seq<Item>, ghost k: nat)
    returns (more: seq<Node>, nullCall: bool)
    requires target.Valid() && target.Ready() && Safe(source, u, target) && |target.v.c| > 0
    requires (mode == AD || mode == ND) && k < |s| && item == s[k]
    requires Went(target.cmp, w, s, k, mode, target.v) && Thrown(target.cmp, w, s, k, mode, discarded)
    requires target.dst || discarded == []
    modifies target, target.v.a, target.stat, target.back, target.rng, target.rng.mt
    ensures target.Valid() && target.Ready() && Safe(source, u, target) && target.Grew() && OldOrNew(target)
    ensures Went(target.cmp, w, s, if nullCall then k else k + 1, mode, target.v)
    ensures Thrown(target.cmp, w, s, if nullCall then k else k + 1, mode, more)
    ensures |more| + |target.v.c| == |discarded| + |old(target.v.c)| + if nullCall then 0 else 1
    ensures nullCall ==> !target.dst && mode == ND && Present(target.cmp, ItemsOf(target.v.c[1..]), s[k])
    ensures target.dst || more == []
  {
    hide SkipList.Valid, SkipList.Ready, Rand.Drawn, HeightFrom, Holds, Apart, Went, OneIn, Present, Thrown;
    ghost var w', lev := target.v, target.NextHeight();
    var status, node := CopyIBeside(target, item, mode, source, u);
    more, nullCall := discarded, false;
    if status == DuplicateKey && !target.dst {
      JoinStops(target.cmp, w, w', s, k, lev, target.v);
      return discarded, true;
    }
    JoinedOneMore(target.cmp, w, w', s, k, mode, discarded, node, lev, target.v);
    if status == DuplicateKey {
      more := discarded + [node];
    }
  }

  /** The joining loop.  It may end early, after `k` nodes. */
  method JoinAll(source: SkipList, target: SkipList, mode: Mode, ghost u: View, ghost s: seq<Item>)
    returns (discarded: seq<Node>, nullCall: bool, ghost k: nat)
    requires target.Valid() && target.Ready() && Safe(source, u, target) && |u.c| > 1 && |target.v.c| > 0
      && (mode == AD || mode == ND)
    requires s == ItemsOf(u.c[1..])
    modifies target, target.v.a, target.stat, target.back, target.rng, target.rng.mt
    ensures target.Valid() && target.Ready() && Safe(source, u, target) && k <= |s|
      && Went(target.cmp, old(target.v), s, k, mode, target.v)
    ensures |discarded| + |target.v.c| == |old(target.v.c)| + k
    ensures Thrown(target.cmp, old(target.v), s, k, mode, discarded)
    ensures target.Grew() && OldOrNew(target)
    ensures if nullCall then k < |s| && mode == ND && Present(target.cmp, ItemsOf(target.v.c[1..]), s[k]) else k == |s|
    ensures if nullCall then !target.dst else target.dst || discarded == []
  {
    hide SkipList.Valid, SkipList.Ready, Rand.Drawn, HeightFrom, Insert, InsertAll, Holds, Apart, Went, OneIn,
      Present, Thrown;
    Walks(source, u, 0);
    WentNone(target.cmp, s, mode, target.v);
    ThrownNone(target.cmp, target.v, s, mode);
    var x := source.header.next[0];
    discarded, nullCall, k := [], false, 0;
    var more := true;
    while more
      invariant k <= |s| && Safe(source, u, target) && target.Valid() && target.Ready()
      invariant x == if k < |s| then u.c[k + 1] else source.header
      invariant more == (x != source.header) == (k < |s|)
      invariant Went(target.cmp, old(target.v), s, k, mode, target.v)
      invariant Thrown(target.cmp, old(target.v), s, k, mode, discarded)
      invariant |discarded| + |target.v.c| == |old(target.v.c)| + k
      invariant OldOrNew(target) && target.Grew() && (target.dst || discarded == [])
      decreases |s| - k
    {
      discarded, nullCall := JoinOne(source, target, mode, x.item, discarded, u, old(target.v), s, k);
      if nullCall {
        return;
      }
      Walks(source, u, k + 1);
      x := x.next[0];
      k := k + 1;
      more := x != source.header;
    }
  }

  /** When a null destroyer is called: the first refusal decides. */
  lemma RefusalIff(cmp: Comparator, t: seq<Item>, s: seq<Item>, k: nat, some: bool)
    requires Sorted(cmp, t) && k <= |s|
    requires if some then k < |s| && Present(cmp, InsertAllAbsent(cmp, t, s[..k]), s[k])
             else k == |s| && Refused(cmp, t, s) == []
    ensures some <==> !AllNew(cmp, t, s)
  {
    hide AllNew, Refused, Present, InsertAllAbsent, Sorted;
    NothingRefusedIff(cmp, t, s);
    if some {
      assert s[..k + 1] == s[..k] + [s[k]];
      RefusedOneMore(cmp, t, s[..k], s[k]);
      RefusedPrefix(cmp, t, s, k + 1);
    }
  }

  /** Joins the source into the target, with or without duplicates.  Without them, the copies
      `discarded` go to the node destroyer; if the target has none, a null function is called
      as soon as there is one, which is so exactly if two items of the source are equal or one
      has an equal in the target.  That is after `k` nodes, and otherwise all nodes are joined. */
  method Join(target: SkipList, source: SkipList, mode: Mode)
    returns (discarded: seq<Node>, nullCall: bool, ghost k: nat)
    requires source.Valid() && target.Valid() && target.Ready() && source != target && Apart(source.v, target)
    requires mode == AD || mode == ND
    modifies target, target.v.a, target.stat, target.back, target.rng, target.rng.mt
    ensures source.Valid() && target.Valid() && target.Ready() && source.v == old(source.v) && Apart(source.v, target)
    ensures nullCall <==> mode == ND && !target.dst && !AllNew(target.cmp, old(target.Items()), source.Items())
    ensures if nullCall then k < source.nodenum else k == source.nodenum
    ensures |source.Items()| == source.nodenum
    ensures target.Items()
         == (if mode == ND then InsertAllAbsent(target.cmp, old(target.Items()), source.Items()[..k])
             else InsertAll(target.cmp, old(target.Items()), source.Items()[..k]))
    ensures Subseq(old(target.v.c), target.v.c) && target.Grew() && OldOrNew(target)
    ensures ItemsOf(discarded)
         == (if mode == ND then Refused(target.cmp, old(target.Items()), source.Items()[..k]) else [])
    ensures |discarded| + target.nodenum == old(target.nodenum) + k
  {
    hide SkipList.Valid, SkipList.Ready, Rand.Drawn, HeightFrom, InsertAll, InsertAllAbsent, Holds, Apart, Went, Thrown,
         Refused, Sorted, Present, AllNew;
    Hold(source);
    Counts(source);
    Counts(target);
    ghost var u, w, s := source.v, target.v, source.Items();
    discarded, nullCall, k := [], false, 0;
    Walks(source, u, 0);
    if source.header.next[0] != source.header {
      discarded, nullCall, k := JoinAll(source, target, mode, u, s);
      HeldValid(source, u);
      Counts(target);
      Counts(source);
    } else {
      WentNone(target.cmp, s, mode, target.v);
      ThrownNone(target.cmp, w, s, mode);
    }
    WentUpTo(target.cmp, w, s, k, mode, target.v);
    ThrownUpTo(target.cmp, w, s, k, mode, discarded);
    assert k == |s| ==> s[..k] == s;
    if mode == ND && !target.dst {
      RefusalIff(target.cmp, ItemsOf(w.c[1..]), s, k, nullCall);
    }
  }

  // ----- intersecting

  /** The node `x` is the `i`-th of the list `l`, or the header if `i` is past the end; `s` is
      what the list holds. */
  ghost predicate Cursor(l: SkipList, u: View, s: seq<Item>, x: Node, i: nat)
    reads l, u.c, u.a
  {
    Holds(l, u) && Place(l.header, u, s, x, i)
  }

  ghost predicate Place(header: Node, u: View, s: seq<Item>, x: Node, i: nat) {
    && |u.c| == |s| + 1 && s == ItemsOf(u.c[1..]) && i <= |s|
    && x == if i < |s| then u.c[i + 1] else header
  }

  lemma CursorNode(l: SkipList, u: View, s: seq<Item>, x: Node, i: nat)
    requires i < |s| && Cursor(l, u, s, x, i)
    ensures x != l.header && x.item == s[i] && x.next.Length > 0 && Cursor(l, u, s, x.next[0], i + 1)
  {
    Walks(l, u, i);
    Walks(l, u, i + 1);
  }

  /** The comparisons of the intersection, by the comparator of `l`.  The nodes come from the
      lists `m` and `n` and are never their headers. */
  predicate Same(l: SkipList, x: Node, m: SkipList, y: Node, n: SkipList)
    requires x != m.header && y != n.header
  {
    Eq(l.cmp, x.item, y.item)
  }

  predicate Precedes(l: SkipList, x: Node, m: SkipList, y: Node, n: SkipList)
    requires x != m.header && y != n.header
  {
    Less(l.cmp, x.item, y.item)
  }

  /** One item of a run more, or the end of the run. */
  lemma RunStep(cmp: Comparator, s: seq<Item>, i: nat, j: nat)
    requires i <= j < |s| && Eq(cmp, s[j], s[i])
    ensures j + 1 == |s| ==> DropRun(cmp, s[j + 1..], s[i]) == s[j + 1..]
    ensures j + 1 < |s| && Eq(cmp, s[j + 1], s[j])
      ==> Eq(cmp, s[j + 1], s[i]) && DropRun(cmp, s[j + 1..], s[i]) == DropRun(cmp, s[j + 2..], s[i])
    ensures j + 1 < |s| && !Eq(cmp, s[j + 1], s[j]) ==> DropRun(cmp, s[j + 1..], s[i]) == s[j + 1..]
  {
    if j + 1 < |s| {
      EqTransfers(cmp, s[j + 1], s[j], s[i]);
      assert s[j + 1..][1..] == s[j + 2..];
    }
  }

  /** Passes the rest of the run that `x` starts, counting down the nodes left. */
  method SkipRun(l: SkipList, first: SkipList, x: Node, left: nat, ghost u: View, ghost s: seq<Item>, ghost i: nat)
    returns (y: Node, rest: nat)
    requires i < |s| && left == |s| - i && Cursor(l, u, s, x, i)
    ensures rest < left && Cursor(l, u, s, y, |s| - rest)
    ensures s[|s| - rest..] == DropRun(first.cmp, s[i + 1..], s[i])
  {
    hide Cursor, DropRun;
    y, rest := x, left - 1;
    ghost var j := i;
    while rest > 0
      invariant i <= j < |s| && rest == |s| - j - 1 && Cursor(l, u, s, y, j)
      invariant Eq(first.cmp, s[j], s[i])
      invariant DropRun(first.cmp, s[i + 1..], s[i]) == DropRun(first.cmp, s[j + 1..], s[i])
    {
      CursorNode(l, u, s, y, j);
      CursorNode(l, u, s, y.next[0], j + 1);
      RunStep(first.cmp, s, i, j);
      if !Same(first, y.next[0], l, y, l) {
        break;
      }
      y := y.next[0];
      j := j + 1;
      rest := rest - 1;
    }
    RunStep(first.cmp, s, i, j);
    CursorNode(l, u, s, y, j);
    y := y.next[0];
  }



  /** The nodes `x` and `y` are where the items `i` and `j` of the two lists are, and the
      counts are those of the nodes left from there. */
  ghost predicate Both(s1: SkipList, u1: View, a: seq<Item>, x: Node, i: nat, left1: nat,
                       s2: SkipList, u2: View, b: seq<Item>, y: Node, j: nat, left2: nat)
    reads s1, u1.c, u1.a, s2, u2.c, u2.a
  {
    && Cursor(s1, u1, a, x, i) && i + left1 == |a|
    && Cursor(s2, u2, b, y, j) && j + left2 == |b|
  }

  /** The merge step at equal heads, after the copy: past both runs. */
  method SkipBoth(s1: SkipList, s2: SkipList, x: Node, left1: nat, y: Node, left2: nat,
                  ghost u1: View, ghost a: seq<Item>, ghost i: nat, ghost u2: View, ghost b: seq<Item>, ghost j: nat)
    returns (x': Node, rest1: nat, y': Node, rest2: nat)
    requires i < |a| && j < |b| && Both(s1, u1, a, x, i, left1, s2, u2, b, y, j, left2)
    requires Eq(s1.cmp, a[i], b[j])
    ensures rest1 < left1 && rest2 < left2 && Both(s1, u1, a, x', |a| - rest1, rest1, s2, u2, b, y', |b| - rest2, rest2)
    ensures Merge(s1.cmp, a[i..], b[j..]) == [a[i]] + Merge(s1.cmp, a[|a| - rest1..], b[|b| - rest2..])
  {
    hide Cursor, DropRun;
    x', rest1 := SkipRun(s1, s1, x, left1, u1, a, i);
    y', rest2 := SkipRun(s2, s1, y, left2, u2, b, j);
    assert a[i..][1..] == a[i + 1..] && b[j..][1..] == b[j + 1..];
  }

  lemma SafeHolds(l: SkipList, u: View, t: SkipList)
    requires Safe(l, u, t)
    ensures Holds(l, u)
  {
  }

  lemma WentExtend(cmp: Comparator, w: View, w': View, m: seq<Item>, x: Item, lev: nat, v: View)
    requires Went(cmp, w, m, |m|, AD, w') && OneIn(cmp, w', x, AD, lev, v)
    ensures Went(cmp, w, m + [x], |m| + 1, AD, v)
  {
    hide InsertAll, Insert, Subseq, ItemsOf;
    var n := m + [x];
    assert m[..|m|] == m && n[..|n|] == n;
    InsertAllOneMore(cmp, ItemsOf(w.c[1..]), m, x);
    SubseqTrans(w.c, w'.c, v.c);
  }

  /** The items copied so far, with the merge of what is left, make the whole merge. */
  ghost predicate SoFar(cmp: Comparator, a: seq<Item>, i: nat, b: seq<Item>, j: nat, m: seq<Item>) {
    i <= |a| && j <= |b| && m + Merge(cmp, a[i..], b[j..]) == Merge(cmp, a, b)
  }

  lemma SoFarNone(cmp: Comparator, a: seq<Item>, b: seq<Item>)
    ensures SoFar(cmp, a, 0, b, 0, [])
  {
    assert a[0..] == a && b[0..] == b;
  }

  lemma SoFarOneMore(cmp: Comparator, a: seq<Item>, i: nat, b: seq<Item>, j: nat, m: seq<Item>, i': nat, j': nat)
    requires i < i' <= |a| && j < j' <= |b| && SoFar(cmp, a, i, b, j, m)
    requires Merge(cmp, a[i..], b[j..]) == [a[i]] + Merge(cmp, a[i'..], b[j'..])
    ensures SoFar(cmp, a, i', b, j', m + [a[i]])
  {
    hide Merge;
    Assoc(m, [a[i]], Merge(cmp, a[i'..], b[j'..]));
  }

  lemma SoFarPassed(cmp: Comparator, a: seq<Item>, i: nat, b: seq<Item>, j: nat, m: seq<Item>)
    requires i < |a| && j < |b| && !Eq(cmp, a[i], b[j]) && SoFar(cmp, a, i, b, j, m)
    ensures if Less(cmp, a[i], b[j]) then SoFar(cmp, a, i + 1, b, j, m) else SoFar(cmp, a, i, b, j + 1, m)
  {
    assert a[i..][1..] == a[i + 1..] && b[j..][1..] == b[j + 1..];
  }

  lemma SoFarDone(cmp: Comparator, a: seq<Item>, i: nat, b: seq<Item>, j: nat, m: seq<Item>)
    requires (i == |a| || j == |b|) && SoFar(cmp, a, i, b, j, m)
    ensures m == Merge(cmp, a, b)
  {
  }

  /** One copy, and both runs passed. */
  method MeetStep(s1: SkipList, s2: SkipList, target: SkipList, x: Node, left1: nat, y: Node, left2: nat,
                  ghost u1: View, ghost a: seq<Item>, ghost i: nat, ghost u2: View, ghost b: seq<Item>, ghost j: nat)
    returns (x': Node, rest1: nat, y': Node, rest2: nat)
    requires target.Valid() && target.Ready() && Safe(s1, u1, target) && Safe(s2, u2, target)
    requires i < |a| && j < |b| && Both(s1, u1, a, x, i, left1, s2, u2, b, y, j, left2)
    requires Eq(s1.cmp, a[i], b[j])
    modifies target, target.v.a, target.stat, target.back, target.rng, target.rng.mt
    ensures target.Valid() && target.Ready() && OldOrNew(target) && target.Grew()
    ensures Safe(s1, u1, target) && Safe(s2, u2, target)
    ensures OneIn(target.cmp, old(target.v), a[i], AD, old(target.NextHeight()), target.v)
    ensures rest1 < left1 && rest2 < left2 && Both(s1, u1, a, x', |a| - rest1, rest1, s2, u2, b, y', |b| - rest2, rest2)
    ensures Merge(s1.cmp, a[i..], b[j..]) == [a[i]] + Merge(s1.cmp, a[|a| - rest1..], b[|b| - rest2..])
  {
    hide SkipList.Valid, SkipList.Ready, Rand.Drawn, HeightFrom, Holds, Apart, OneIn, Merge, Place, Safe;
    CursorNode(s1, u1, a, x, i);
    CopyPlainBeside(target, x.item, s1, u1, s2, u2);
    SafeHolds(s1, u1, target);
    SafeHolds(s2, u2, target);
    ghost var v := target.v;
    x', rest1, y', rest2 := SkipBoth(s1, s2, x, left1, y, left2, u1, a, i, u2, b, j);
    assert target.v == v;
  }

  /** One round of the merge: `m` has been copied before it, `m'` after it. */
  method MergeStep(s1: SkipList, s2: SkipList, target: SkipList, x: Node, left1: nat, y: Node, left2: nat,
                   ghost u1: View, ghost a: seq<Item>, ghost u2: View, ghost b: seq<Item>, ghost w: View,
                           ghost m: seq<Item>)
    returns (x': Node, rest1: nat, y': Node, rest2: nat, ghost m': seq<Item>)
    requires target.Valid() && target.Ready() && Safe(s1, u1, target) && Safe(s2, u2, target)
    requires 0 < left1 <= |a| && 0 < left2 <= |b|
    requires Both(s1, u1, a, x, |a| - left1, left1, s2, u2, b, y, |b| - left2, left2)
    requires SoFar(s1.cmp, a, |a| - left1, b, |b| - left2, m) && Went(target.cmp, w, m, |m|, AD, target.v)
    modifies target, target.v.a, target.stat, target.back, target.rng, target.rng.mt
    ensures target.Valid() && target.Ready() && OldOrNew(target) && target.Grew()
    ensures Safe(s1, u1, target) && Safe(s2, u2, target)
    ensures rest1 <= left1 && rest2 <= left2 && rest1 + rest2 < left1 + left2
    ensures Both(s1, u1, a, x', |a| - rest1, rest1, s2, u2, b, y', |b| - rest2, rest2)
    ensures SoFar(s1.cmp, a, |a| - rest1, b, |b| - rest2, m') && Went(target.cmp, w, m', |m'|, AD, target.v)
  {
    hide SkipList.Valid, SkipList.Ready, Rand.Drawn, HeightFrom, Holds, Apart, Went, OneIn, Merge, Place, Safe, SoFar;
    ghost var i, j := |a| - left1, |b| - left2;
    CursorNode(s1, u1, a, x, i);
    CursorNode(s2, u2, b, y, j);
    if Same(s1, x, s1, y, s2) {
      ghost var w', lev, key := target.v, target.NextHeight(), a[i];
      x', rest1, y', rest2 := MeetStep(s1, s2, target, x, left1, y, left2, u1, a, i, u2, b, j);
      WentExtend(target.cmp, w, w', m, key, lev, target.v);
      SoFarOneMore(s1.cmp, a, i, b, j, m, |a| - rest1, |b| - rest2);
      m' := m + [key];
    } else {
      SoFarPassed(s1.cmp, a, i, b, j, m);
      x', rest1, y', rest2, m' := x, left1, y, left2, m;
      if Precedes(s1, x, s1, y, s2) {
        x', rest1 := x.next[0], left1 - 1;
      } else {
        y', rest2 := y.next[0], left2 - 1;
      }
    }
  }

  /** The merge.  Both counts are always those of the nodes left, which bounds every loop. */
  method MeetAll(s1: SkipList, s2: SkipList, target: SkipList, left1: nat, left2: nat,
                 ghost u1: View, ghost a: seq<Item>, ghost u2: View, ghost b: seq<Item>)
    returns (ghost m: seq<Item>)
    requires target.Valid() && target.Ready() && |target.v.c| > 0 && Safe(s1, u1, target) && Safe(s2, u2, target)
    requires s1.header.next.Length > 0 && s2.header.next.Length > 0
    requires Both(s1, u1, a, s1.header.next[0], 0, left1, s2, u2, b, s2.header.next[0], 0, left2)
    modifies target, target.v.a, target.stat, target.back, target.rng, target.rng.mt
    ensures target.Valid() && target.Ready() && Safe(s1, u1, target) && Safe(s2, u2, target)
    ensures target.Grew() && OldOrNew(target)
    ensures m == Merge(s1.cmp, a, b) && Went(target.cmp, old(target.v), m, |m|, AD, target.v)
  {
    hide SkipList.Valid, SkipList.Ready, Rand.Drawn, HeightFrom, Holds, Apart, Went, OneIn, Merge, Place, Safe, SoFar;
    var x, y := s1.header.next[0], s2.header.next[0];
    var tovisit1: nat := left1;
    var tovisit2: nat := left2;
    m := [];
    WentNone(target.cmp, m, AD, target.v);
    SoFarNone(s1.cmp, a, b);
    while tovisit1 > 0 && tovisit2 > 0
      invariant target.Valid() && target.Ready() && OldOrNew(target) && target.Grew()
      invariant Safe(s1, u1, target) && Safe(s2, u2, target) && tovisit1 <= |a| && tovisit2 <= |b|
      invariant Both(s1, u1, a, x, |a| - tovisit1, tovisit1, s2, u2, b, y, |b| - tovisit2, tovisit2)
      invariant SoFar(s1.cmp, a, |a| - tovisit1, b, |b| - tovisit2, m)
      invariant Went(target.cmp, old(target.v), m, |m|, AD, target.v)
      decreases tovisit1 + tovisit2
    {
      x, tovisit1, y, tovisit2, m :=
        MergeStep(s1, s2, target, x, tovisit1, y, tovisit2, u1, a, u2, b, old(target.v), m);
    }
    SoFarDone(s1.cmp, a, |a| - tovisit1, b, |b| - tovisit2, m);
  }

  /** Both walks at their start. */
  lemma BothStart(s1: SkipList, u1: View, s2: SkipList, u2: View)
    requires Holds(s1, u1) && Holds(s2, u2)
    ensures |u1.c| > 0 && |u2.c| > 0 && s1.header.next.Length > 0 && s2.header.next.Length > 0
    ensures Both(s1, u1, ItemsOf(u1.c[1..]), s1.header.next[0], 0, s1.nodenum,
                 s2, u2, ItemsOf(u2.c[1..]), s2.header.next[0], 0, s2.nodenum)
    ensures s1.header.next[0] == s1.header <==> s1.nodenum == 0
    ensures s2.header.next[0] == s2.header <==> s2.nodenum == 0
  {
    Counts(s1);
    Counts(s2);
    hide SkipList.Valid;
    Walks(s1, u1, 0);
    Walks(s2, u2, 0);
  }

  /** Adds to the target a copy of each item that the merge yields. */
  method Intersect(source1: SkipList, source2: SkipList, target: SkipList)
    requires source1.Valid() && source2.Valid() && target.Valid() && target.Ready()
    requires source1 != target && source2 != target && Apart(source1.v, target) && Apart(source2.v, target)
    modifies target, target.v.a, target.stat, target.back, target.rng, target.rng.mt
    ensures source1.Valid() && source1.v == old(source1.v) && source2.Valid() && source2.v == old(source2.v)
    ensures Apart(source1.v, target) && Apart(source2.v, target)
    ensures target.Valid() && target.Ready() && Subseq(old(target.v.c), target.v.c)
    ensures target.Grew() && OldOrNew(target)
    ensures target.Items()
         == InsertAll(target.cmp, old(target.Items()), Merge(source1.cmp, source1.Items(), source2.Items()))
  {
    hide SkipList.Ready, Rand.Drawn, HeightFrom, InsertAll, Merge, Apart, Went, Both, Sorted;
    Counts(source1);
    Counts(source2);
    Counts(target);
    ghost var u1, a, u2, b, w := source1.v, source1.Items(), source2.v, source2.Items(), target.v;
    hide SkipList.Valid;
    Hold(source1);
    Hold(source2);
    hide Holds;
    BothStart(source1, u1, source2, u2);
    ghost var m := [];
    if source1.header.next[0] == source1.header || source2.header.next[0] == source2.header {
      MergeOfNone(source1.cmp, a, b);
      WentNone(target.cmp, m, AD, target.v);
    } else {
      m := MeetAll(source1, source2, target, source1.nodenum, source2.nodenum, u1, a, u2, b);
      HeldValid(source1, u1);
      HeldValid(source2, u2);
    }
    WentAll(target.cmp, w, m, target.v);
  }

  lemma MergeOfNone(cmp: Comparator, a: seq<Item>, b: seq<Item>)
    requires a == [] || b == []
    ensures Merge(cmp, a, b) == []
  {
  }

  /** Of two lists sorted by the same comparator, intersected into an empty one: the result is the
      intersection itself, without duplicates. */
  lemma IntersectEmpty(cmp: Comparator, a: seq<Item>, b: seq<Item>)
    requires Sorted(cmp, a) && Sorted(cmp, b)
    ensures InsertAll(cmp, [], Merge(cmp, a, b)) == Meet(cmp, a, b)
    ensures StrictlySorted(cmp, Meet(cmp, a, b))
  {
    hide InsertAll, Merge, Meet, Sorted, StrictlySorted;
    MergeIsMeet(cmp, a, b);
    MeetSorted(cmp, a, b);
    InsertAllStrict(cmp, Meet(cmp, a, b));
  }
}
