/**
 The doubly linked build, in which every node also owns an array of backward pointers.  On every
 level they are the exact inverse of the forward ones, and every change of a level keeps them so.
 */
module Doubles {
  import opened Towers
  import opened Links

  /** The place of one backward pointer: a node and a level of its tower. */
  datatype Cell = Cell(n: Node, i: nat)

  /** The backward pointers of the nodes of one list. */
  class Back {
    var prev: map<Cell, Node>

    constructor (header: Node, max: nat)
      ensures prev == Array(header, max, header)
    {
      prev := Array(header, max, header);
    }

    /** Gives `x` its array, with every pointer to the header. */
    method Grow(x: Node, lev: nat, header: Node)
      modifies this
      ensures prev == old(prev) + Array(x, lev, header)
    {
      prev := prev + Array(x, lev, header);
    }

    /** What leads forward to `succ` is now `x`, and what leads to `x` is `pred`. */
    method Link(pred: Node, x: Node, succ: Node, i: nat)
      requires Cell(succ, i) in prev && Cell(x, i) in prev
      modifies this
      ensures prev == old(prev)[Cell(succ, i) := x][Cell(x, i) := pred]
    {
      prev := prev[Cell(succ, i) := x];
      prev := prev[Cell(x, i) := pred];
    }

    /** What leads forward to `succ` is now `pred`. */
    method Unlink(pred: Node, succ: Node, i: nat)
      requires Cell(succ, i) in prev
      modifies this
      ensures prev == old(prev)[Cell(succ, i) := pred]
    {
      prev := prev[Cell(succ, i) := pred];
    }

    /** Frees the array of `x`. */
    method Release(x: Node)
      modifies this
      ensures prev == Without(old(prev), x)
    {
      prev := Without(prev, x);
    }
  }

  /** A new array of `lev` pointers. */
  function Array(x: Node, lev: nat, to: Node): (m: map<Cell, Node>)
    ensures forall c :: c in m ==> c.n == x && c.i < lev && m[c] == to
    ensures forall i: nat :: i < lev ==> Cell(x, i) in m
  {
    map i: nat | i < lev :: Cell(x, i) := to
  }

  function Without(m: map<Cell, Node>, x: Node): (m': map<Cell, Node>)
    ensures forall c :: c in m' ==> c in m && c.n != x && m'[c] == m[c]
    ensures forall c :: c in m && c.n != x ==> c in m'
  {
    map c | c in m && c.n != x :: m[c]
  }

  /** Every node of the list, and no other, has an array, as long as its tower is high. */
  ghost predicate Sized(v: View, m: map<Cell, Node>) {
    && |v.c| == |v.h| > 0
    && (forall p, i: nat :: 0 <= p < |v.c| ==> (Cell(v.c[p], i) in m <==> i < v.h[p]))
    && (forall c :: c in m ==> c.n in v.c)
  }

  /** On level `i` every backward pointer leads to the last tower before, round the circle. */
  ghost predicate BackAt(v: View, m: map<Cell, Node>, i: nat)
    requires |v.c| == |v.h| > 0 && i < v.h[0]
  {
    forall p {:trigger Cell(v.c[p], i)} :: 0 <= p < |v.c| && i < v.h[p] ==>
      Cell(v.c[p], i) in m && m[Cell(v.c[p], i)] == v.c[Before(v.h, p, i)]
  }

  ghost predicate Backed(v: View, m: map<Cell, Node>) {
    Sized(v, m) && forall i: nat :: i < v.h[0] ==> BackAt(v, m, i)
  }

  ghost predicate Distinct(c: seq<Node>) {
    forall p, q :: 0 <= p < q < |c| ==> c[p] != c[q]
  }

  lemma SameNode(c: seq<Node>, p: nat, r: nat)
    requires Distinct(c) && p < |c| && r < |c|
    ensures c[p] == c[r] <==> p == r
  {
  }

  /** Half-way: the levels from `lo` to `hi` have the new tower, the others do not. */
  ghost predicate Half(v: View, v': View, m: map<Cell, Node>, lo: nat, hi: nat) {
    && |v.c| == |v.h| > 0 && Sized(v', m) && v'.h[0] == v.h[0]
    && forall j: nat :: j < v.h[0] ==> if lo <= j < hi then BackAt(v', m, j) else BackAt(v, m, j)
  }

  /** Assignments to pointers of one level leave the other levels alone. */
  lemma OtherLevel(v: View, m: map<Cell, Node>, i: nat, y: Node, to: Node, j: nat)
    requires |v.c| == |v.h| > 0 && j < v.h[0] && j != i
    ensures BackAt(v, m, j) <==> BackAt(v, m[Cell(y, i) := to], j)
  {
    hide Before;
    var m' := m[Cell(y, i) := to];
    forall p | 0 <= p < |v.c|
      ensures (Cell(v.c[p], j) in m <==> Cell(v.c[p], j) in m')
           && (Cell(v.c[p], j) in m ==> m'[Cell(v.c[p], j)] == m[Cell(v.c[p], j)])
    {
    }
  }

  lemma SizedStill(v: View, m: map<Cell, Node>, i: nat, y: Node, to: Node)
    requires Sized(v, m) && Cell(y, i) in m
    ensures Sized(v, m[Cell(y, i) := to])
  {
  }

  lemma SizesAfter(v: View, q: nat, x: Node, b: array<Node>, v': View)
    requires Grown(v, q, x, b, v')
    ensures 1 <= q <= |v.c| == |v.h| && |v'.c| == |v'.h| == |v.c| + 1 && v'.h[0] == v.h[0]
    ensures v'.c[q] == x && v'.h[q] == b.Length
  {
  }

  lemma Moved(v: View, q: nat, x: Node, b: array<Node>, v': View, p: nat)
    requires Grown(v, q, x, b, v') && p < |v.c|
    ensures 1 <= q < |v'.c| == |v'.h| && v'.c[q] == x && v'.h[q] == b.Length && |v.c| == |v.h| && v'.h[0] == v.h[0]
    ensures Raise(p, q) < |v'.c| && v'.c[Raise(p, q)] == v.c[p] && v'.h[Raise(p, q)] == v.h[p]
  {
  }

  /** The predecessors of the old towers, and of the new one. */
  lemma MovedBefore(v: View, q: nat, x: Node, b: array<Node>, v': View, i: nat, o: nat)
    requires Grown(v, q, x, b, v') && i < v.h[0] && o < |v.c| && i < v.h[o]
    ensures |v'.c| == |v'.h| && v'.h[0] == v.h[0] && Raise(o, q) < |v'.c|
    ensures v'.c[Before(v'.h, Raise(o, q), i)]
         == if i < b.Length && o == NextAt(v.h, PrevAt(v.h, q, i), i) then x else v.c[Before(v.h, o, i)]
    ensures o == NextAt(v.h, PrevAt(v.h, q, i), i) ==> Before(v.h, o, i) == PrevAt(v.h, q, i)
    ensures i < b.Length ==> v'.c[Before(v'.h, q, i)] == v.c[PrevAt(v.h, q, i)]
  {
    BeforeAfterInsert(v.h, q, b.Length, v'.h, o, i);
    NextThenBefore(v.h, PrevAt(v.h, q, i), i);
    Moved(v, q, x, b, v', Before(v.h, o, i));
    Moved(v, q, x, b, v', PrevAt(v.h, q, i));
    if i < b.Length {
      BeforeInserted(v.h, q, b.Length, v'.h, i);
    }
  }

  lemma SamePlace(v: View, q: nat, x: Node, b: array<Node>, v': View, o: nat, r: nat)
    requires Grown(v, q, x, b, v') && Distinct(v'.c) && o < |v.c| && r < |v.c|
    ensures v.c[o] != x && (v.c[o] == v.c[r] <==> o == r)
  {
    Moved(v, q, x, b, v', o);
    Moved(v, q, x, b, v', r);
    SameNode(v'.c, Raise(o, q), q);
    SameNode(v'.c, Raise(o, q), Raise(r, q));
  }

  /** The backward pointer of one old node after the new tower has gone into level `i`. */
  lemma BackGrownAt(v: View, q: nat, x: Node, b: array<Node>, v': View, m: map<Cell, Node>, i: nat, o: nat)
    requires Grown(v, q, x, b, v') && |v.c| == |v.h| && i < b.Length && i < v.h[0] && Distinct(v'.c)
    requires BackAt(v, m, i) && o < |v.c| && i < v.h[o]
    ensures var at := PrevAt(v.h, q, i); var m' := m[Cell(v.c[NextAt(v.h, at, i)], i) := x][Cell(x, i) := v.c[at]];
      && |v'.c| == |v'.h| && v'.h[0] == v.h[0] && Raise(o, q) < |v'.c| && Cell(v.c[o], i) in m'
      && m'[Cell(v.c[o], i)] == v'.c[Before(v'.h, Raise(o, q), i)]
  {
    MovedBefore(v, q, x, b, v', i, o);
    SamePlace(v, q, x, b, v', o, NextAt(v.h, PrevAt(v.h, q, i), i));
    hide NextAt, PrevAt, Before, Grown;
    assert Cell(v.c[o], i) in m && m[Cell(v.c[o], i)] == v.c[Before(v.h, o, i)];
  }

  lemma BackGrown(v: View, q: nat, x: Node, b: array<Node>, v': View, m: map<Cell, Node>, i: nat)
    requires Grown(v, q, x, b, v') && |v.c| == |v.h| && i < b.Length && i < v.h[0] && Distinct(v'.c) && BackAt(v, m, i)
    ensures var at := PrevAt(v.h, q, i); var m' := m[Cell(v.c[NextAt(v.h, at, i)], i) := x][Cell(x, i) := v.c[at]];
      |v'.c| == |v'.h| && v'.h[0] == v.h[0] && BackAt(v', m', i)
  {
    hide NextAt, PrevAt, Before, Grown;
    SizesAfter(v, q, x, b, v');
    var at := PrevAt(v.h, q, i);
    var m' := m[Cell(v.c[NextAt(v.h, at, i)], i) := x][Cell(x, i) := v.c[at]];
    MovedBefore(v, q, x, b, v', i, 0);
    Moved(v, q, x, b, v', at);
    forall p | 0 <= p < |v'.c| && i < v'.h[p]
      ensures Cell(v'.c[p], i) in m' && m'[Cell(v'.c[p], i)] == v'.c[Before(v'.h, p, i)]
    {
      if p != q {
        var o := if p < q then p else p - 1;
        Moved(v, q, x, b, v', o);
        BackGrownAt(v, q, x, b, v', m, i, o);
      }
    }
  }

  /** The backward pointer of one node after the tower has left level `i`. */
  lemma BackShrunkAt(v: View, q: nat, x: Node, b: array<Node>, v': View, m: map<Cell, Node>, i: nat, o: nat)
    requires Grown(v, q, x, b, v') && |v.c| == |v.h| && i < b.Length && i < v.h[0] && Distinct(v'.c)
    requires |v'.c| == |v'.h| && v'.h[0] == v.h[0] && BackAt(v', m, i) && o < |v.c| && i < v.h[o]
    ensures var at := PrevAt(v.h, q, i); var m' := m[Cell(v.c[NextAt(v.h, at, i)], i) := v.c[at]];
      Cell(v.c[o], i) in m' && m'[Cell(v.c[o], i)] == v.c[Before(v.h, o, i)]
  {
    MovedBefore(v, q, x, b, v', i, o);
    Moved(v, q, x, b, v', o);
    SamePlace(v, q, x, b, v', o, NextAt(v.h, PrevAt(v.h, q, i), i));
    hide NextAt, PrevAt, Before, Grown;
    var p := Raise(o, q);
    assert Cell(v'.c[p], i) in m && m[Cell(v'.c[p], i)] == v'.c[Before(v'.h, p, i)];
  }

  lemma BackShrunk(v: View, q: nat, x: Node, b: array<Node>, v': View, m: map<Cell, Node>, i: nat)
    requires Grown(v, q, x, b, v') && |v.c| == |v.h| && i < b.Length && i < v.h[0] && Distinct(v'.c)
    requires |v'.c| == |v'.h| && v'.h[0] == v.h[0] && BackAt(v', m, i)
    ensures var at := PrevAt(v.h, q, i); BackAt(v, m[Cell(v.c[NextAt(v.h, at, i)], i) := v.c[at]], i)
  {
    var at := PrevAt(v.h, q, i);
    var m' := m[Cell(v.c[NextAt(v.h, at, i)], i) := v.c[at]];
    hide NextAt, PrevAt, Before, Grown;
    forall p | 0 <= p < |v.c| && i < v.h[p]
      ensures Cell(v.c[p], i) in m' && m'[Cell(v.c[p], i)] == v.c[Before(v.h, p, i)]
    {
      BackShrunkAt(v, q, x, b, v', m, i, p);
    }
  }

  /** On a level that the tower does not reach it makes no difference. */
  lemma BackAbove(v: View, q: nat, x: Node, b: array<Node>, v': View, m: map<Cell, Node>, i: nat)
    requires Grown(v, q, x, b, v') && |v.c| == |v.h| && b.Length <= i < v.h[0]
    ensures |v'.c| == |v'.h| && v'.h[0] == v.h[0] && (BackAt(v, m, i) <==> BackAt(v', m, i))
  {
    hide BackAt, Grown;
    SizesAfter(v, q, x, b, v');
    if BackAt(v, m, i) {
      BackAboveIn(v, q, x, b, v', m, i);
    }
    if BackAt(v', m, i) {
      BackAboveOut(v, q, x, b, v', m, i);
    }
  }

  lemma BackAboveIn(v: View, q: nat, x: Node, b: array<Node>, v': View, m: map<Cell, Node>, i: nat)
    requires Grown(v, q, x, b, v') && |v.c| == |v.h| && b.Length <= i < v.h[0] && BackAt(v, m, i)
    ensures |v'.c| == |v'.h| && v'.h[0] == v.h[0] && BackAt(v', m, i)
  {
    hide NextAt, PrevAt, Before, Grown;
    SizesAfter(v, q, x, b, v');
    forall p | 0 <= p < |v'.c| && i < v'.h[p]
      ensures Cell(v'.c[p], i) in m && m[Cell(v'.c[p], i)] == v'.c[Before(v'.h, p, i)]
    {
      var o := if p < q then p else p - 1;
      Moved(v, q, x, b, v', o);
      MovedBefore(v, q, x, b, v', i, o);
      assert Cell(v.c[o], i) in m;
    }
  }

  lemma BackAboveOut(v: View, q: nat, x: Node, b: array<Node>, v': View, m: map<Cell, Node>, i: nat)
    requires Grown(v, q, x, b, v') && |v.c| == |v.h| && b.Length <= i < v.h[0]
    requires |v'.c| == |v'.h| && v'.h[0] == v.h[0] && BackAt(v', m, i)
    ensures BackAt(v, m, i)
  {
    hide NextAt, PrevAt, Before, Grown;
    forall o | 0 <= o < |v.c| && i < v.h[o]
      ensures Cell(v.c[o], i) in m && m[Cell(v.c[o], i)] == v.c[Before(v.h, o, i)]
    {
      Moved(v, q, x, b, v', o);
      MovedBefore(v, q, x, b, v', i, o);
      assert Cell(v'.c[Raise(o, q)], i) in m;
    }
  }

  // ----- one level of an insertion or a deletion

  lemma Cells(v: View, m: map<Cell, Node>, p: nat, i: nat)
    requires Sized(v, m) && p < |v.c|
    ensures Cell(v.c[p], i) in m <==> i < v.h[p]
  {
  }

  lemma HalfLink(v: View, q: nat, x: Node, b: array<Node>, v': View, m: map<Cell, Node>, lo: nat, hi: nat, i: nat)
    requires Grown(v, q, x, b, v') && |v.c| == |v.h| && i < b.Length && i < v.h[0] && Distinct(v'.c)
    requires Half(v, v', m, lo, hi) && lo <= hi && (i + 1 == lo || i == hi)
    ensures var at := PrevAt(v.h, q, i); var succ := v.c[NextAt(v.h, at, i)];
      && Cell(succ, i) in m && Cell(x, i) in m
      && Half(v, v', m[Cell(succ, i) := x][Cell(x, i) := v.c[at]],
              if i == hi then lo else i, if i == hi then i + 1 else hi)
  {
    var at := PrevAt(v.h, q, i);
    var r := NextAt(v.h, at, i);
    var succ := v.c[r];
    hide NextAt, PrevAt, Grown, BackAt, Sized;
    SizesAfter(v, q, x, b, v');
    Moved(v, q, x, b, v', r);
    Cells(v', m, Raise(r, q), i);
    Cells(v', m, q, i);
    BackGrown(v, q, x, b, v', m, i);
    SizedStill(v', m, i, succ, x);
    var m1 := m[Cell(succ, i) := x];
    SizedStill(v', m1, i, x, v.c[at]);
    var m2 := m1[Cell(x, i) := v.c[at]];
    forall j: nat | j < v.h[0] && j != i
      ensures (BackAt(v, m, j) ==> BackAt(v, m2, j)) && (BackAt(v', m, j) ==> BackAt(v', m2, j))
    {
      OtherLevel(v, m, i, succ, x, j);
      OtherLevel(v, m1, i, x, v.c[at], j);
      OtherLevel(v', m, i, succ, x, j);
      OtherLevel(v', m1, i, x, v.c[at], j);
    }
  }

  lemma HalfUnlink(v: View, q: nat, x: Node, b: array<Node>, v': View, m: map<Cell, Node>, i: nat, hi: nat)
    requires Grown(v, q, x, b, v') && |v.c| == |v.h| && i < b.Length && i < v.h[0] && Distinct(v'.c)
    requires Half(v, v', m, i, hi) && i < hi
    ensures var at := PrevAt(v.h, q, i); var succ := v.c[NextAt(v.h, at, i)];
      && Cell(succ, i) in m && Half(v, v', m[Cell(succ, i) := v.c[at]], i + 1, hi)
  {
    var at := PrevAt(v.h, q, i);
    var r := NextAt(v.h, at, i);
    var succ := v.c[r];
    hide NextAt, PrevAt, Grown, BackAt, Sized;
    SizesAfter(v, q, x, b, v');
    Moved(v, q, x, b, v', r);
    Cells(v', m, Raise(r, q), i);
    BackShrunk(v, q, x, b, v', m, i);
    SizedStill(v', m, i, succ, v.c[at]);
    var m1 := m[Cell(succ, i) := v.c[at]];
    forall j: nat | j < v.h[0] && j != i
      ensures (BackAt(v, m, j) ==> BackAt(v, m1, j)) && (BackAt(v', m, j) ==> BackAt(v', m1, j))
    {
      OtherLevel(v, m, i, succ, v.c[at], j);
      OtherLevel(v', m, i, succ, v.c[at], j);
    }
  }

  /** The levels that the tower does not reach may be counted either way. */
  lemma HalfAbove(v: View, q: nat, x: Node, b: array<Node>, v': View, m: map<Cell, Node>,
          lo: nat, hi: nat, lo': nat, hi': nat)
    requires Grown(v, q, x, b, v') && Half(v, v', m, lo, hi)
    requires lo == lo' || (b.Length <= lo && b.Length <= lo')
    requires hi == hi' || (b.Length <= hi && b.Length <= hi')
    ensures Half(v, v', m, lo', hi')
  {
    hide Grown, BackAt, Sized;
    SizesAfter(v, q, x, b, v');
    forall j: nat | j < v.h[0]
      ensures |v'.c| == |v'.h| && v'.h[0] == v.h[0] && if lo' <= j < hi' then BackAt(v', m, j) else BackAt(v, m, j)
    {
      if b.Length <= j {
        BackAbove(v, q, x, b, v', m, j);
      }
    }
  }

  lemma OtherCell(m: map<Cell, Node>, x: Node, lev: nat, to: Node, c: Cell)
    requires c.n != x
    ensures c in m + Array(x, lev, to) <==> c in m
    ensures c in m ==> (m + Array(x, lev, to))[c] == m[c]
  {
  }

  lemma StillBack(v: View, m: map<Cell, Node>, x: Node, lev: nat, to: Node, j: nat)
    requires |v.c| == |v.h| > 0 && j < v.h[0] && BackAt(v, m, j) && x !in v.c
    ensures BackAt(v, m + Array(x, lev, to), j)
  {
    hide Before, Array;
    forall p | 0 <= p < |v.c| && j < v.h[p]
      ensures Cell(v.c[p], j) in m + Array(x, lev, to)
      ensures (m + Array(x, lev, to))[Cell(v.c[p], j)] == v.c[Before(v.h, p, j)]
    {
      OtherCell(m, x, lev, to, Cell(v.c[p], j));
    }
  }

  /** An insertion starts with an array for the new node and ends with every level linked. */
  lemma HalfStart(v: View, q: nat, x: Node, b: array<Node>, v': View, m: map<Cell, Node>, header: Node, at: nat)
    requires Grown(v, q, x, b, v') && Distinct(v'.c) && Backed(v, m)
    ensures Half(v, v', m + Array(x, b.Length, header), at, at)
  {
    hide Sized, Grown, BackAt, Array, Distinct;
    SizesAfter(v, q, x, b, v');
    GrownSized(v, q, x, b, v', m, header);
    NotYetIn(v, q, x, b, v');
    forall j: nat | j < v.h[0] ensures BackAt(v, m + Array(x, b.Length, header), j) {
      StillBack(v, m, x, b.Length, header, j);
    }
  }

  lemma GrownSized(v: View, q: nat, x: Node, b: array<Node>, v': View, m: map<Cell, Node>, header: Node)
    requires Grown(v, q, x, b, v') && Distinct(v'.c) && Sized(v, m)
    ensures Sized(v', m + Array(x, b.Length, header))
  {
    var m' := m + Array(x, b.Length, header);
    SizesAfter(v, q, x, b, v');
    hide Grown;
    forall p, i: nat | 0 <= p < |v'.c| ensures Cell(v'.c[p], i) in m' <==> i < v'.h[p] {
      if p != q {
        var o := if p < q then p else p - 1;
        Moved(v, q, x, b, v', o);
        SamePlace(v, q, x, b, v', o, o);
        Cells(v, m, o, i);
      } else if Cell(x, i) in m {
        NotYetIn(v, q, x, b, v');
      }
    }
    forall c | c in m' ensures c.n in v'.c {
      if c.n != x {
        var o :| 0 <= o < |v.c| && v.c[o] == c.n;
        Moved(v, q, x, b, v', o);
      }
    }
  }

  lemma NotYetIn(v: View, q: nat, x: Node, b: array<Node>, v': View)
    requires Grown(v, q, x, b, v') && Distinct(v'.c)
    ensures x !in v.c
  {
    forall o | 0 <= o < |v.c| ensures v.c[o] != x {
      SamePlace(v, q, x, b, v', o, o);
    }
  }

  lemma HalfWhole(v: View, v': View, m: map<Cell, Node>)
    requires |v.c| == |v.h| > 0 && Half(v, v', m, 0, v.h[0])
    ensures Backed(v', m)
  {
  }

  /** A deletion starts with every level linked and ends when the node's array is freed. */
  lemma WholeHalf(v: View, v': View, m: map<Cell, Node>)
    requires |v.c| == |v.h| > 0 && Backed(v', m) && v'.h[0] == v.h[0]
    ensures Half(v, v', m, 0, v.h[0])
  {
  }

  lemma HalfEnd(v: View, q: nat, x: Node, b: array<Node>, v': View, m: map<Cell, Node>, at: nat)
    requires Grown(v, q, x, b, v') && Distinct(v'.c) && Half(v, v', m, at, at)
    ensures Backed(v, Without(m, x))
  {
    var m' := Without(m, x);
    SizesAfter(v, q, x, b, v');
    hide Grown, Before;
    forall p, i: nat | 0 <= p < |v.c| ensures Cell(v.c[p], i) in m' <==> i < v.h[p] {
      Moved(v, q, x, b, v', p);
      SamePlace(v, q, x, b, v', p, p);
      Cells(v', m, Raise(p, q), i);
    }
    forall c | c in m' ensures c.n in v.c {
      var p :| 0 <= p < |v'.c| && v'.c[p] == c.n;
      if p != q {
        Moved(v, q, x, b, v', if p < q then p else p - 1);
      }
    }
    forall j: nat | j < v.h[0] ensures BackAt(v, m', j) {
      assert BackAt(v, m, j);
      forall p | 0 <= p < |v.c| && j < v.h[p]
        ensures Cell(v.c[p], j) in m' && m'[Cell(v.c[p], j)] == v.c[Before(v.h, p, j)]
      {
        SamePlace(v, q, x, b, v', p, p);
      }
    }
  }

  // ----- the writes of one level, forward and, in the doubly linked build, backward

  /** In the doubly linked build, the backward pointers of a well-formed list. */
  ghost predicate Mirrored(back: Back?, v: View)
    reads back
  {
    back != null ==> Distinct(v.c) && Backed(v, back.prev)
  }

  /** The same half-way. */
  ghost predicate Halfway(back: Back?, v: View, v': View, lo: nat, hi: nat)
    reads back
  {
    back != null ==> Distinct(v'.c) && Half(v, v', back.prev, lo, hi)
  }

  /** Puts `x` into level `i` after `pred`. */
  method LinkBoth(back: Back?, pred: Node, x: Node, i: nat, ghost v: View, ghost q: nat, ghost v': View,
          ghost lo: nat, ghost hi: nat)
    requires Grown(v, q, x, x.next, v') && Wf(v) && Wf(v') && i < x.next.Length && i < v.h[0]
    requires pred.next == v.a[PrevAt(v.h, q, i)] && pred == v.c[PrevAt(v.h, q, i)]
    requires Mixed(v, v', lo, hi) && Halfway(back, v, v', lo, hi) && lo <= hi && (i + 1 == lo || i == hi)
    modifies pred.next, x.next, back
    ensures Mixed(v, v', if i == hi then lo else i, if i == hi then i + 1 else hi)
    ensures Halfway(back, v, v', if i == hi then lo else i, if i == hi then i + 1 else hi)
  {
    hide Mixed, Half, NextAt, PrevAt, Grown, Distinct;
    LinkLevel(pred, x, i, v, q, v', lo, hi);
    if back != null {
      SizesAfter(v, q, x, x.next, v');
      HalfLink(v, q, x, x.next, v', back.prev, lo, hi, i);
      back.Link(pred, x, x.next[i], i);
    }
  }

  /** Takes `x` out of level `i`. */
  method UnlinkBoth(back: Back?, pred: Node, x: Node, i: nat, ghost v: View, ghost q: nat, ghost v': View,
          ghost hi: nat)
    requires Grown(v, q, x, x.next, v') && Wf(v) && Wf(v') && i < x.next.Length && i < v.h[0]
    requires pred.next == v.a[PrevAt(v.h, q, i)] && pred == v.c[PrevAt(v.h, q, i)] && i < pred.next.Length
    requires Mixed(v, v', i, hi) && Halfway(back, v, v', i, hi) && i < hi
    modifies pred.next, back
    ensures Mixed(v, v', i + 1, hi) && Halfway(back, v, v', i + 1, hi)
  {
    hide Mixed, Half, NextAt, PrevAt, Grown, Distinct;
    UnlinkLevel(pred, x, i, v, q, v', hi);
    if back != null {
      SizesAfter(v, q, x, x.next, v');
      HalfUnlink(v, q, x, x.next, v', back.prev, i, hi);
      back.Unlink(pred, x.next[i], i);
    }
  }
}
