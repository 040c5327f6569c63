/**
 The index arithmetic behind a skip list.

 A list is described by the heights `h` of its towers in level-0 order, with the
 header at position 0.  On level `i` the successor of position `p` is the first later
 tower reaching above `i`; when there is none the level closes at the header, so the
 answer is 0.
 */
module Towers {

  /** `t` is `s` with `x` put in at position `q`. */
  ghost predicate Inserted<T>(s: seq<T>, q: nat, x: T, t: seq<T>) {
    && q <= |s| && |t| == |s| + 1 && t[q] == x
    && (forall j {:trigger t[j]} :: 0 <= j < q ==> t[j] == s[j])
    && (forall j {:trigger t[j]} :: q < j < |t| ==> t[j] == s[j - 1])
  }

  function InsertAt<T>(s: seq<T>, q: nat, x: T): (t: seq<T>)
    requires q <= |s|
    ensures Inserted(s, q, x, t)
  {
    s[..q] + [x] + s[q..]
  }

  lemma InsertedUnique<T>(s: seq<T>, q: nat, x: T, t: seq<T>)
    requires Inserted(s, q, x, t)
    ensures t == InsertAt(s, q, x) && q < |t| && s == RemoveAt(t, q)
  {
    var r := RemoveAt(t, q);
    assert forall j :: 0 <= j < |s| ==> s[j] == if j < q then t[j] else t[j + 1];
  }

  function RemoveAt<T>(s: seq<T>, q: nat): (r: seq<T>)
    requires q < |s|
    ensures |r| + 1 == |s|
  {
    s[..q] + s[q + 1..]
  }

  lemma RemovedInserted<T>(s: seq<T>, q: nat)
    requires q < |s|
    ensures Inserted(RemoveAt(s, q), q, s[q], s)
  {
  }

  lemma RemoveUndoesInsert<T>(s: seq<T>, q: nat, x: T)
    requires q <= |s|
    ensures RemoveAt(InsertAt(s, q, x), q) == s
  {
  }

  lemma InsertAtContents<T>(s: seq<T>, q: nat, x: T)
    requires q <= |s|
    ensures multiset(InsertAt(s, q, x)) == multiset(s) + multiset{x}
  {
    assert s == s[..q] + s[q..];
  }

  /** `b` has all of `a`, in the same order. */
  ghost predicate Subseq<T>(a: seq<T>, b: seq<T>) {
    a == [] || (b != [] && ((a[0] == b[0] && Subseq(a[1..], b[1..])) || Subseq(a, b[1..])))
  }

  lemma {:induction false} SubseqSame<T>(a: seq<T>)
    ensures Subseq(a, a)
  {
    if a != [] {
      SubseqSame(a[1..]);
    }
  }

  lemma {:induction false} SubseqTrans<T>(a: seq<T>, b: seq<T>, c: seq<T>)
    requires Subseq(a, b) && Subseq(b, c)
    ensures Subseq(a, c)
    decreases |c|
  {
    if a != [] {
      if b[0] == c[0] && Subseq(b[1..], c[1..]) {
        if a[0] == b[0] && Subseq(a[1..], b[1..]) {
          SubseqTrans(a[1..], b[1..], c[1..]);
        } else {
          SubseqTrans(a, b[1..], c[1..]);
        }
      } else {
        SubseqTrans(a, b, c[1..]);
      }
    }
  }

  lemma {:induction false} SubseqInserted<T>(a: seq<T>, q: nat, x: T, b: seq<T>)
    requires Inserted(a, q, x, b)
    ensures Subseq(a, b)
    decreases q
  {
    if q == 0 {
      assert b[1..] == a by {
        assert forall j :: 0 <= j < |a| ==> b[1..][j] == b[j + 1];
      }
      SubseqSame(a);
    } else {
      assert b[0] == a[0];
      assert Inserted(a[1..], q - 1, x, b[1..]);
      SubseqInserted(a[1..], q - 1, x, b[1..]);
    }
  }

  /** The first position at or after `q` whose tower reaches above level `i`, or 0. */
  function Scan(h: seq<nat>, q: nat, i: nat): (r: nat)
    requires 1 <= q <= |h|
    ensures r == 0 || (q <= r < |h| && h[r] > i)
    decreases |h| - q
  {
    if q == |h| then 0 else if h[q] > i then q else Scan(h, q + 1, i)
  }

  /** The successor of position `p` on level `i`. */
  function NextAt(h: seq<nat>, p: nat, i: nat): (r: nat)
    requires p < |h|
    ensures r == 0 || (p < r < |h| && h[r] > i)
  {
    Scan(h, p + 1, i)
  }

  /** The last position before `q` whose tower reaches above level `i`. */
  function PrevAt(h: seq<nat>, q: nat, i: nat): (r: nat)
    requires 1 <= q <= |h| && h[0] > i
    ensures r < q && h[r] > i
  {
    if h[q - 1] > i then q - 1 else PrevAt(h, q - 1, i)
  }

  /** Where position `a` goes when a tower is inserted at `q`. */
  function Raise(a: nat, q: nat): (r: nat) {
    if a < q then a else a + 1
  }

  /** Nothing between a position and its successor reaches the level. */
  lemma {:induction false} ScanSkips(h: seq<nat>, q: nat, i: nat)
    requires 1 <= q <= |h|
    ensures var r := Scan(h, q, i); forall s :: q <= s < (if r == 0 then |h| else r) ==> h[s] <= i
    decreases |h| - q
  {
    if q < |h| && h[q] <= i {
      ScanSkips(h, q + 1, i);
    }
  }

  lemma NextSkips(h: seq<nat>, p: nat, i: nat)
    requires p < |h|
    ensures var r := NextAt(h, p, i); forall s :: p < s < (if r == 0 then |h| else r) ==> h[s] <= i
  {
    ScanSkips(h, p + 1, i);
  }

  lemma {:induction false} PrevSkips(h: seq<nat>, q: nat, i: nat)
    requires 1 <= q <= |h| && h[0] > i
    ensures forall s :: PrevAt(h, q, i) < s < q ==> h[s] <= i
  {
    if h[q - 1] <= i {
      PrevSkips(h, q - 1, i);
    }
  }

  /** The successor is determined by what it skips. */
  lemma NextUnique(h: seq<nat>, p: nat, i: nat, r: nat)
    requires p < |h|
    requires r == 0 || (p < r < |h| && h[r] > i)
    requires forall s :: p < s < (if r == 0 then |h| else r) ==> h[s] <= i
    ensures r == NextAt(h, p, i)
  {
    NextSkips(h, p, i);
  }

  lemma PrevUnique(h: seq<nat>, q: nat, i: nat, r: nat)
    requires 1 <= q <= |h| && h[0] > i
    requires r < q && h[r] > i && forall s :: r < s < q ==> h[s] <= i
    ensures r == PrevAt(h, q, i)
  {
    PrevSkips(h, q, i);
  }

  /** Inserting a tower of height `height` at `q` redirects, on every level the new tower
      reaches, exactly the link of the last tower before `q`; every other link keeps its
      target. */
  lemma NextAfterInsert(h: seq<nat>, q: nat, height: nat, h': seq<nat>, p: nat, i: nat)
    requires 1 <= q && Inserted(h, q, height, h') && p < |h| && i < h[0] && i < h[p]
    ensures NextAt(h', Raise(p, q), i)
         == if i < height && p == PrevAt(h, q, i) then q else Raise(NextAt(h, p, i), q)
  {
    NextSkips(h, p, i);
    PrevSkips(h, q, i);
    var next := if i < height && p == PrevAt(h, q, i) then q else Raise(NextAt(h, p, i), q);
    NextUnique(h', Raise(p, q), i, next);
  }

  /** The new tower takes over the old target of the link that now points to it. */
  lemma NextOfInserted(h: seq<nat>, q: nat, height: nat, h': seq<nat>, i: nat)
    requires 1 <= q && Inserted(h, q, height, h') && i < h[0] && i < height
    ensures NextAt(h', q, i) == Raise(NextAt(h, PrevAt(h, q, i), i), q)
  {
    NextSkips(h, PrevAt(h, q, i), i);
    PrevSkips(h, q, i);
    NextUnique(h', q, i, Raise(NextAt(h, PrevAt(h, q, i), i), q));
  }

  /** The towers before `q` do not see the insertion. */
  lemma PrevAfterInsert(h: seq<nat>, q: nat, height: nat, h': seq<nat>, i: nat)
    requires 1 <= q && Inserted(h, q, height, h') && i < h[0]
    ensures PrevAt(h', q, i) == PrevAt(h, q, i)
  {
    PrevSkips(h, q, i);
    PrevUnique(h', q, i, PrevAt(h, q, i));
  }

  // ----- backwards

  /** The predecessor of position `p` on level `i`; that of the header is the last tower there. */
  function Before(h: seq<nat>, p: nat, i: nat): (r: nat)
    requires p < |h| && h[0] > i
    ensures r < |h| && h[r] > i
  {
    PrevAt(h, if p == 0 then |h| else p, i)
  }

  /** On every level predecessors and successors are exact inverses, all round the circle. */
  lemma NextThenBefore(h: seq<nat>, p: nat, i: nat)
    requires p < |h| && h[0] > i && h[p] > i
    ensures Before(h, NextAt(h, p, i), i) == p
  {
    var r := NextAt(h, p, i);
    NextSkips(h, p, i);
    PrevUnique(h, if r == 0 then |h| else r, i, p);
  }

  lemma BeforeThenNext(h: seq<nat>, p: nat, i: nat)
    requires p < |h| && h[0] > i && h[p] > i
    ensures NextAt(h, Before(h, p, i), i) == p
  {
    PrevSkips(h, if p == 0 then |h| else p, i);
    NextUnique(h, Before(h, p, i), i, p);
  }

  /** A new tower at `q` becomes the predecessor, on each level it reaches, exactly of the tower
      that its own predecessor led to; every other tower keeps its predecessor. */
  lemma BeforeAfterInsert(h: seq<nat>, q: nat, height: nat, h': seq<nat>, p: nat, i: nat)
    requires 1 <= q && Inserted(h, q, height, h') && p < |h| && i < h[0] && i < h[p]
    ensures Raise(p, q) < |h'| && h'[0] == h[0]
    ensures Before(h', Raise(p, q), i)
         == if i < height && p == NextAt(h, PrevAt(h, q, i), i) then q else Raise(Before(h, p, i), q)
  {
    var at, r := PrevAt(h, q, i), Before(h, p, i);
    BeforeThenNext(h, p, i);
    NextAfterInsert(h, q, height, h', r, i);
    if i < height && r == at {
      NextOfInserted(h, q, height, h', i);
      NextThenBefore(h', q, i);
    } else {
      NextThenBefore(h, at, i);
      NextThenBefore(h', Raise(r, q), i);
    }
  }

  /** Its own predecessor is the last tower before it. */
  lemma BeforeInserted(h: seq<nat>, q: nat, height: nat, h': seq<nat>, i: nat)
    requires 1 <= q && Inserted(h, q, height, h') && i < h[0] && i < height
    ensures h'[0] == h[0] && Before(h', q, i) == PrevAt(h, q, i)
  {
    PrevAfterInsert(h, q, height, h', i);
  }

  // ----- levels as filtered sequences

  /** The positions above `p` on level `i`, reached by following successors. */
  function Walk(h: seq<nat>, p: nat, i: nat): (w: seq<nat>)
    requires p < |h|
    ensures forall j :: 0 <= j < |w| ==> p < w[j] < |h|
    decreases |h| - p
  {
    var r := NextAt(h, p, i);
    if r == 0 then [] else [r] + Walk(h, r, i)
  }

  /** The positions from `q` on whose towers reach above level `i`, by inspecting each. */
  function Reaching(h: seq<nat>, q: nat, i: nat): (w: seq<nat>)
    requires q <= |h|
    decreases |h| - q
  {
    if q == |h| then [] else (if h[q] > i then [q] else []) + Reaching(h, q + 1, i)
  }

  lemma {:induction false} SkipShort(h: seq<nat>, q: nat, r: nat, i: nat)
    requires q <= r <= |h|
    requires forall s :: q <= s < r ==> h[s] <= i
    ensures Reaching(h, q, i) == Reaching(h, r, i)
    decreases r - q
  {
    if q < r {
      SkipShort(h, q + 1, r, i);
    }
  }

  /** A level is the level-0 order with the short towers left out. */
  lemma {:induction false} WalkIsReaching(h: seq<nat>, p: nat, i: nat)
    requires p < |h|
    ensures Walk(h, p, i) == Reaching(h, p + 1, i)
    decreases |h| - p
  {
    var r := NextAt(h, p, i);
    NextSkips(h, p, i);
    if r == 0 {
      SkipShort(h, p + 1, |h|, i);
    } else {
      SkipShort(h, p + 1, r, i);
      WalkIsReaching(h, r, i);
    }
  }
}
