/**
 The links in memory: nodes that own an array of forward pointers, one a level, and a header
 that closes every level; and what one level goes through in an insertion or a deletion.
 */
module Links {
  import opened KeyOrder
  import opened Towers

  const MAXLEVELS: nat := 20

  class Node {
    const item: Item
    var next: array<Node>
    var sz: nat

    constructor (item: Item)
      ensures this.item == item && sz == 0 && fresh(next)
    {
      this.item := item;
      next := new Node[0];
      sz := 0;
    }
  }

  function ItemsOf(c: seq<Node>): (s: seq<Item>)
    ensures |s| == |c|
    ensures forall i :: 0 <= i < |c| ==> s[i] == c[i].item
  {
    seq(|c|, i requires 0 <= i < |c| => c[i].item)
  }

  // ----- the shape of the memory

  /** The header and then the nodes in level-0 order, the array each one owns, and its
      height. */
  datatype View = View(c: seq<Node>, a: seq<array<Node>>, h: seq<nat>)

  /** Arrays are as long as their towers are high, and none is shared. */
  ghost predicate Wf(v: View) {
    && |v.c| == |v.a| == |v.h| > 0
    && (forall p :: 0 <= p < |v.a| ==> v.a[p].Length == v.h[p])
    && (forall p, q :: 0 <= p < q < |v.a| ==> v.a[p] != v.a[q])
  }

  /** The nodes point to the arrays and record the heights the view gives them. */
  ghost predicate Owned(v: View)
    reads v.c
  {
    && |v.c| == |v.a| == |v.h|
    && forall p :: 0 <= p < |v.c| ==> v.c[p].next == v.a[p] && v.c[p].sz == v.h[p]
  }

  /** Level `i` is the circular list of the towers reaching above `i`. */
  ghost predicate Linked(v: View, i: nat)
    requires Wf(v)
    reads v.a
  {
    forall p {:trigger v.a[p][i]} :: 0 <= p < |v.a| && i < v.h[p] ==> v.a[p][i] == v.c[NextAt(v.h, p, i)]
  }

  ghost predicate LinkedAll(v: View)
    requires Wf(v)
    reads v.a
  {
    forall i: nat :: i < v.h[0] ==> Linked(v, i)
  }

  /** `v'` is `v` with the tower `x` at position `q`. */
  ghost predicate Grown(v: View, q: nat, x: Node, b: array<Node>, v': View) {
    && |v.c| == |v.a| == |v.h| && 1 <= q <= |v.h|
    && Inserted(v.c, q, x, v'.c) && Inserted(v.a, q, b, v'.a) && Inserted(v.h, q, b.Length, v'.h)
  }

  /** The link out of position `p` on level `i`, before and after a tower goes in. */
  lemma LinkAfterGrowth(v: View, q: nat, x: Node, b: array<Node>, v': View, p: nat, i: nat)
    requires Grown(v, q, x, b, v') && p < |v.c| && i < v.h[0] && i < v.h[p]
    ensures v'.a[Raise(p, q)] == v.a[p] && v'.h[Raise(p, q)] == v.h[p]
    ensures v'.c[NextAt(v'.h, Raise(p, q), i)]
         == if i < b.Length && p == PrevAt(v.h, q, i) then x else v.c[NextAt(v.h, p, i)]
  {
    NextAfterInsert(v.h, q, b.Length, v'.h, p, i);
  }

  /** What level `i` looks like, in terms of the positions before, once the tower `x` is in
      at `q`: the last tower before `q` leads to `x`, which leads where that one led. */
  ghost predicate LinkedAround(v: View, q: nat, x: Node, b: array<Node>, i: nat)
    requires Wf(v) && 1 <= q <= |v.h| && i < v.h[0]
    reads v.a, b
  {
    var at := PrevAt(v.h, q, i);
    && (i < b.Length ==> b[i] == v.c[NextAt(v.h, at, i)])
    && forall p {:trigger v.a[p][i]} :: 0 <= p < |v.a| && i < v.h[p]
         ==> v.a[p][i] == if i < b.Length && p == at then x else v.c[NextAt(v.h, p, i)]
  }

  lemma GrowthInAt(v: View, q: nat, x: Node, b: array<Node>, v': View, i: nat, p: nat)
    requires Grown(v, q, x, b, v') && Wf(v) && Wf(v') && i < v.h[0]
    requires LinkedAround(v, q, x, b, i) && p < |v.c| && i < v.h[p]
    ensures v.a[p][i] == v'.c[NextAt(v'.h, Raise(p, q), i)]
  {
    hide NextAt, PrevAt;
    LinkAfterGrowth(v, q, x, b, v', p, i);
  }

  lemma NewTowerIn(v: View, q: nat, x: Node, b: array<Node>, v': View, i: nat)
    requires Grown(v, q, x, b, v') && Wf(v) && Wf(v') && i < v.h[0]
    requires LinkedAround(v, q, x, b, i) && i < b.Length
    ensures b[i] == v'.c[NextAt(v'.h, q, i)]
  {
    hide NextAt, PrevAt;
    NextOfInserted(v.h, q, b.Length, v'.h, i);
  }

  lemma GrowthIn(v: View, q: nat, x: Node, b: array<Node>, v': View, i: nat)
    requires Grown(v, q, x, b, v') && Wf(v) && Wf(v') && i < v.h[0]
    requires LinkedAround(v, q, x, b, i)
    ensures Linked(v', i)
  {
    hide NextAt, PrevAt, LinkedAround;
    forall p | 0 <= p < |v'.c| && i < v'.h[p] ensures v'.a[p][i] == v'.c[NextAt(v'.h, p, i)] {
      if p == q {
        NewTowerIn(v, q, x, b, v', i);
      } else {
        GrowthInAt(v, q, x, b, v', i, if p < q then p else p - 1);
      }
    }
  }

  lemma GrowthOutAt(v: View, q: nat, x: Node, b: array<Node>, v': View, i: nat, p: nat)
    requires Grown(v, q, x, b, v') && Wf(v) && Wf(v') && i < v.h[0]
    requires Linked(v', i) && p < |v.c| && i < v.h[p]
    ensures v.a[p][i] == if i < b.Length && p == PrevAt(v.h, q, i) then x else v.c[NextAt(v.h, p, i)]
  {
    hide NextAt, PrevAt;
    LinkAfterGrowth(v, q, x, b, v', p, i);
    assert v'.a[Raise(p, q)][i] == v'.c[NextAt(v'.h, Raise(p, q), i)];
  }

  lemma NewTowerOut(v: View, q: nat, x: Node, b: array<Node>, v': View, i: nat)
    requires Grown(v, q, x, b, v') && Wf(v) && Wf(v') && i < v.h[0]
    requires Linked(v', i) && i < b.Length
    ensures b[i] == v.c[NextAt(v.h, PrevAt(v.h, q, i), i)]
  {
    hide NextAt, PrevAt;
    NextOfInserted(v.h, q, b.Length, v'.h, i);
    assert v'.a[q][i] == v'.c[NextAt(v'.h, q, i)];
  }

  lemma GrowthOut(v: View, q: nat, x: Node, b: array<Node>, v': View, i: nat)
    requires Grown(v, q, x, b, v') && Wf(v) && Wf(v') && i < v.h[0]
    requires Linked(v', i)
    ensures LinkedAround(v, q, x, b, i)
  {
    hide NextAt, PrevAt, Linked, Inserted;
    if i < b.Length {
      NewTowerOut(v, q, x, b, v', i);
    }
    forall p | 0 <= p < |v.c| && i < v.h[p]
      ensures v.a[p][i] == if i < b.Length && p == PrevAt(v.h, q, i) then x else v.c[NextAt(v.h, p, i)]
    {
      GrowthOutAt(v, q, x, b, v', i, p);
    }
  }

  /** A level the tower does not reach is the same before and after. */
  lemma LevelAbove(v: View, q: nat, x: Node, b: array<Node>, v': View, i: nat)
    requires Grown(v, q, x, b, v') && Wf(v) && Wf(v') && b.Length <= i < v.h[0]
    ensures Linked(v, i) <==> Linked(v', i)
  {
    if Linked(v, i) {
      GrowthIn(v, q, x, b, v', i);
    }
    if Linked(v', i) {
      GrowthOut(v, q, x, b, v', i);
    }
  }

  // ----- one level of an insertion

  /** Half-way through an insertion: the levels from `lo` to `hi` have the new tower, the
      others do not yet. */
  ghost predicate Mixed(v: View, v': View, lo: nat, hi: nat)
    requires Wf(v) && Wf(v')
    reads v.a, v'.a
  {
    forall j: nat :: j < v.h[0] ==> if lo <= j < hi then Linked(v', j) else Linked(v, j)
  }

  lemma NothingYet(v: View, v': View, at: nat)
    requires Wf(v) && Wf(v') && LinkedAll(v)
    ensures Mixed(v, v', at, at)
  {
  }

  lemma AllThere(v: View, v': View)
    requires Wf(v) && Wf(v') && LinkedAll(v') && v'.h[0] == v.h[0]
    ensures Mixed(v, v', 0, v.h[0])
  {
  }

  lemma NoneThere(v: View, v': View, lo: nat, hi: nat)
    requires Wf(v) && Wf(v') && Mixed(v, v', lo, hi) && hi <= lo
    ensures LinkedAll(v)
  {
  }

  lemma StillThere(v: View, v': View, lo: nat, hi: nat, i: nat)
    requires Wf(v) && Wf(v') && Mixed(v, v', lo, hi) && lo <= i < hi && i < v.h[0]
    ensures Linked(v', i)
  {
  }

  lemma GrownSizes(v: View, q: nat, x: Node, b: array<Node>, v': View)
    requires Grown(v, q, x, b, v') && Wf(v)
    ensures 1 <= q <= |v.c| == |v.h| == |v.a| && v'.h[0] == v.h[0] && |v'.c| == |v.c| + 1
  {
  }

  /** The arrays of the other nodes are among those of the larger list, and not the tower's. */
  lemma GrownArray(v: View, q: nat, x: Node, b: array<Node>, v': View, p: nat)
    requires Grown(v, q, x, b, v') && Wf(v') && p < |v.a|
    ensures v.a[p] in v'.a && v.a[p] != b
  {
    assert v'.a[Raise(p, q)] == v.a[p];
  }

  lemma NotYet(v: View, v': View, lo: nat, hi: nat, i: nat)
    requires Wf(v) && Wf(v') && Mixed(v, v', lo, hi) && i < v.h[0] && (i < lo || hi <= i)
    ensures Linked(v, i)
  {
  }

  /** On the levels the tower does not reach there is nothing to do. */
  lemma MixedAbove(v: View, q: nat, x: Node, b: array<Node>, v': View, lo: nat, hi: nat, lo': nat, hi': nat)
    requires Grown(v, q, x, b, v') && Wf(v) && Wf(v') && Mixed(v, v', lo, hi)
    requires lo == lo' || (b.Length <= lo && b.Length <= lo')
    requires hi == hi' || (b.Length <= hi && b.Length <= hi')
    ensures Mixed(v, v', lo', hi')
  {
    forall j: nat | j < v.h[0] ensures if lo' <= j < hi' then Linked(v', j) else Linked(v, j) {
      if b.Length <= j {
        LevelAbove(v, q, x, b, v', j);
      }
    }
  }

  /** The two assignments that put `x` after `pred` on level `i`. */
  method WriteLinks(pred: Node, x: Node, i: nat)
    requires pred.next != x.next && i < pred.next.Length && i < x.next.Length
    modifies pred.next, x.next
    ensures x.next[i] == old(pred.next[i]) && pred.next[i] == x
    ensures forall j :: 0 <= j < pred.next.Length && j != i ==> pred.next[j] == old(pred.next[j])
    ensures forall j :: 0 <= j < x.next.Length && j != i ==> x.next[j] == old(x.next[j])
  {
    x.next[i] := pred.next[i];
    pred.next[i] := x;
  }

  /** Puts `x` into level `i` after `pred`, the last tower before `q` that reaches it. */
  method LinkOneLevel(pred: Node, x: Node, i: nat, ghost v: View, ghost q: nat, ghost v': View)
    requires Grown(v, q, x, x.next, v') && Wf(v) && Wf(v') && i < x.next.Length && i < v.h[0]
    requires pred.next == v.a[PrevAt(v.h, q, i)]
    requires Linked(v, i)
    modifies pred.next, x.next
    ensures Linked(v', i) && x.next[i] == v.c[NextAt(v.h, PrevAt(v.h, q, i), i)]
    ensures forall j: nat :: j != i && old(Linked(v, j)) ==> Linked(v, j)
    ensures forall j: nat :: j != i && old(Linked(v', j)) ==> Linked(v', j)
  {
    hide NextAt, PrevAt;
    ghost var at := PrevAt(v.h, q, i);
    assert v'.a[q] == x.next && v'.a[at] == pred.next;
    assert forall p :: 0 <= p < |v.a| && p != at ==> v.a[p] != pred.next && v.a[p] != x.next by {
      assert forall p :: 0 <= p < |v.a| ==> v.a[p] == v'.a[Raise(p, q)];
    }
    WriteLinks(pred, x, i);
    GrowthIn(v, q, x, x.next, v', i);
  }

  /** One more level of an insertion, next to those already done. */
  method LinkLevel(pred: Node, x: Node, i: nat, ghost v: View, ghost q: nat, ghost v': View, ghost lo: nat,
          ghost hi: nat)
    requires Grown(v, q, x, x.next, v') && Wf(v) && Wf(v') && i < x.next.Length && i < v.h[0]
    requires pred.next == v.a[PrevAt(v.h, q, i)]
    requires Mixed(v, v', lo, hi) && lo <= hi && (i + 1 == lo || i == hi)
    modifies pred.next, x.next
    ensures x.next[i] == v.c[NextAt(v.h, PrevAt(v.h, q, i), i)]
    ensures Mixed(v, v', if i == hi then lo else i, if i == hi then i + 1 else hi)
  {
    assert Linked(v, i);
    LinkOneLevel(pred, x, i, v, q, v');
  }

  // ----- one level of a deletion

  /** On a level the tower reaches, the last tower before it leads to it; on no other level
      does the last tower before lead to it. */
  lemma WhoLeadsTo(v: View, q: nat, x: Node, b: array<Node>, v': View, i: nat)
    requires Grown(v, q, x, b, v') && Wf(v) && Wf(v') && i < v.h[0] && Linked(v', i) && Owned(v')
    ensures v.a[PrevAt(v.h, q, i)][i] == x <==> i < b.Length
  {
    hide NextAt, PrevAt, Linked;
    GrowthOut(v, q, x, b, v', i);
    var at := PrevAt(v.h, q, i);
    var r := NextAt(v.h, at, i);
    assert v.c[r] != x by {
      assert v'.c[Raise(r, q)] == v.c[r] && v'.c[q] == x && Raise(r, q) != q;
      assert v'.a[Raise(r, q)] != v'.a[q];
    }
  }

  /** Takes `x` out of level `i`: its predecessor skips it. */
  method UnlinkOneLevel(pred: Node, x: Node, i: nat, ghost v: View, ghost q: nat, ghost v': View)
    requires Grown(v, q, x, x.next, v') && Wf(v) && Wf(v') && i < x.next.Length && i < v.h[0]
    requires pred.next == v.a[PrevAt(v.h, q, i)] && i < pred.next.Length
    requires Linked(v', i)
    modifies pred.next
    ensures Linked(v, i) && x.next[i] == v.c[NextAt(v.h, PrevAt(v.h, q, i), i)]
    ensures forall j: nat :: j != i && old(Linked(v, j)) ==> Linked(v, j)
    ensures forall j: nat :: j != i && old(Linked(v', j)) ==> Linked(v', j)
  {
    hide NextAt, PrevAt;
    ghost var at := PrevAt(v.h, q, i);
    GrowthOut(v, q, x, x.next, v', i);
    assert forall p :: 0 <= p < |v.a| && p != at ==> v.a[p] != pred.next;
    assert v'.a[q] != v'.a[Raise(at, q)];
    pred.next[i] := x.next[i];
  }

  /** One more level of a deletion: read backwards, `v'` is the list before and `v` after. */
  method UnlinkLevel(pred: Node, x: Node, i: nat, ghost v: View, ghost q: nat, ghost v': View, ghost hi: nat)
    requires Grown(v, q, x, x.next, v') && Wf(v) && Wf(v') && i < x.next.Length && i < v.h[0]
    requires pred.next == v.a[PrevAt(v.h, q, i)] && i < pred.next.Length
    requires Mixed(v, v', i, hi) && i < hi
    modifies pred.next
    ensures Mixed(v, v', i + 1, hi) && x.next[i] == v.c[NextAt(v.h, PrevAt(v.h, q, i), i)]
  {
    assert Linked(v', i);
    UnlinkOneLevel(pred, x, i, v, q, v');
  }
}
