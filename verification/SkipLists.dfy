/**
 The skip list: its invariant, insertion by either algorithm, deletion and search.
 */
module SkipLists {
  import opened KeyOrder
  import opened Towers
  import opened Links
  import opened Levels
  import opened Blocks
  import opened Doubles
  import opened Mt19937

  /** The nodes before position `q`, and only they, are less than `k`. */
  ghost predicate Splits(cmp: Comparator, c: seq<Node>, q: nat, k: Item) {
    && 1 <= q <= |c|
    && forall j :: 1 <= j < |c| ==> (Less(cmp, c[j].item, k) <==> j < q)
  }

  /** Where an item goes: after the header and everything less than it. */
  ghost function PlaceIn(cmp: Comparator, c: seq<Node>, k: Item): (q: nat)
    requires |c| > 0
    ensures 1 <= q <= |c|
  {
    1 + LowerBound(cmp, ItemsOf(c[1..]), k)
  }

  lemma SplitsAtPlace(cmp: Comparator, c: seq<Node>, k: Item)
    requires |c| > 0 && Sorted(cmp, ItemsOf(c[1..]))
    ensures Splits(cmp, c, PlaceIn(cmp, c, k), k)
  {
    var s := ItemsOf(c[1..]);
    LowerBoundSplits(cmp, s, k);
    assert forall j :: 1 <= j < |c| ==> c[j].item == s[j - 1];
  }

  /** `top` is exactly the height of the tallest tower after the header, or 1 if none. */
  ghost predicate Tallest(h: seq<nat>, top: nat) {
    && 1 <= top
    && (forall p :: 1 <= p < |h| ==> 1 <= h[p] <= top)
    && (top == 1 || exists p :: 1 <= p < |h| && h[p] == top)
  }

  lemma TallestGrows(h: seq<nat>, q: nat, height: nat, h': seq<nat>, top: nat)
    requires Tallest(h, top) && 1 <= height && 1 <= q && Inserted(h, q, height, h')
    ensures Tallest(h', if height > top then height else top)
  {
    if height <= top && top != 1 {
      var p :| 1 <= p < |h| && h[p] == top;
      assert h'[Raise(p, q)] == top;
    }
  }

  lemma ItemsGrow(v: View, q: nat, x: Node, b: array<Node>, v': View)
    requires Grown(v, q, x, b, v')
    ensures ItemsOf(v'.c[1..]) == InsertAt(ItemsOf(v.c[1..]), q - 1, x.item)
  {
    assert Inserted(ItemsOf(v.c[1..]), q - 1, x.item, ItemsOf(v'.c[1..]));
    InsertedUnique(ItemsOf(v.c[1..]), q - 1, x.item, ItemsOf(v'.c[1..]));
  }

  /** On level 0, where every tower stands, the successor is the next position. */
  lemma NextOnGround(h: seq<nat>, p: nat, top: nat)
    requires p < |h| && Tallest(h, top)
    ensures NextAt(h, p, 0) == if p + 1 < |h| then p + 1 else 0
  {
    NextUnique(h, p, 0, if p + 1 < |h| then p + 1 else 0);
  }

  /** A well-formed skip list of at most `max` levels, sorted by `cmp`, whose tallest tower
      has height `top`. */
  ghost predicate Sound(v: View, cmp: Comparator, header: Node, max: nat, top: nat)
    reads v.c, v.a
  {
    && Wf(v) && Owned(v)
    && v.c[0] == header && v.h[0] == max <= MAXLEVELS
    && Tallest(v.h, top) && top <= max
    && LinkedAll(v)
    && Sorted(cmp, ItemsOf(v.c[1..]))
  }

  /** The count is the number of nodes, and the tail the last of them, or the header. */
  ghost predicate Counted(v: View, nodenum: nat, tail: Node) {
    |v.c| > 0 && nodenum == |v.c| - 1 && tail == v.c[nodenum]
  }

  lemma EmptySound(x: Node, cmp: Comparator, max: nat)
    requires 1 <= max <= MAXLEVELS && x.sz == max == x.next.Length
    requires forall i :: 0 <= i < max ==> x.next[i] == x
    ensures Sound(View([x], [x.next], [max]), cmp, x, max, 1)
  {
  }

  lemma EmptyBacked(x: Node, b: array<Node>, max: nat)
    requires 1 <= max
    ensures Distinct([x]) && Backed(View([x], [b], [max]), Array(x, max, x))
  {
  }

  lemma SoundBefore(v: View, cmp: Comparator, header: Node, max: nat, top: nat)
    requires Sound(v, cmp, header, max, top)
    ensures |v.c| > 0 && top <= max
  {
  }

  lemma SoundParts(v: View, cmp: Comparator, header: Node, max: nat, top: nat, k: Item)
    requires Sound(v, cmp, header, max, top)
    ensures Wf(v) && Owned(v) && LinkedAll(v) && Tallest(v.h, top) && top <= max <= MAXLEVELS && 1 <= top
    ensures |v.c| == |v.a| == |v.h| > 0 && v.c[0] == header && v.h[0] == max
    ensures Splits(cmp, v.c, PlaceIn(cmp, v.c, k), k)
  {
    SplitsAtPlace(cmp, v.c, k);
  }

  lemma ALevel(v: View, i: nat)
    requires Wf(v) && LinkedAll(v) && i < v.h[0]
    ensures Linked(v, i)
  {
  }

  lemma OwnedAt(v: View, p: nat)
    requires Wf(v) && Owned(v) && |v.c| == |v.a| == |v.h| && p < |v.c|
    ensures v.c[p].next == v.a[p] && v.a[p].Length == v.h[p]
  {
  }

  lemma GroundLink(v: View, p: nat, top: nat)
    requires Wf(v) && Owned(v) && LinkedAll(v) && p < |v.c| && v.h[0] > 0 && Tallest(v.h, top)
    ensures v.c[p].next.Length > 0 && v.c[p].next[0] == if p + 1 < |v.c| then v.c[p + 1] else v.c[0]
  {
    assert Linked(v, 0) && v.h[p] > 0;
    NextOnGround(v.h, p, top);
  }

  lemma PrevOnGround(h: seq<nat>, q: nat, top: nat)
    requires 1 <= q <= |h| && Tallest(h, top) && h[0] > 0
    ensures PrevAt(h, q, 0) == q - 1
  {
  }

  /** The tower `x` belongs at `q` of the list `v`, which then becomes `v'`. */
  ghost predicate Fits(v: View, cmp: Comparator, header: Node, max: nat, q: nat, x: Node, v': View) {
    && Wf(v) && v.c[0] == header && v.h[0] == max <= MAXLEVELS
    && Sorted(cmp, ItemsOf(v.c[1..])) && q == PlaceIn(cmp, v.c, x.item)
    && Wf(v') && q < |v'.a| && Grown(v, q, x, v'.a[q], v')
    && 1 <= v'.h[q] <= max
  }

  /** What the linking loops need to know. */
  lemma FitsParts(v: View, cmp: Comparator, header: Node, max: nat, q: nat, x: Node, v': View)
    requires Fits(v, cmp, header, max, q, x, v') && Owned(v')
    ensures Wf(v) && Wf(v') && |v.c| > 0 && |v.h| > 0 && v.c[0] == header && v.h[0] == max
    ensures Grown(v, q, x, x.next, v') && Splits(cmp, v.c, q, x.item) && 1 <= q && x != header
    ensures x.sz == x.next.Length && x.next in v'.a
  {
    SplitsAtPlace(cmp, v.c, x.item);
    assert v'.c[q] == x && v'.c[0] == header && v'.c[q].next == v'.a[q] && v'.c[0].next == v'.a[0];
  }

  lemma FitsEnds(v: View, cmp: Comparator, header: Node, max: nat, q: nat, x: Node, v': View)
    requires Fits(v, cmp, header, max, q, x, v') && Owned(v')
    ensures 0 < |v.c| == |v'.c| - 1 && q <= |v.c| && v'.c[q] == x && Grown(v, q, x, x.next, v')
    ensures |v.c| == |v.h| && v.h[0] == max
    ensures q < |v.c| ==> v'.c[|v.c|] == v.c[|v.c| - 1]
  {
  }

  lemma Grow(v: View, q: nat, x: Node, b: array<Node>) returns (v': View)
    requires Wf(v) && 1 <= q <= |v.c| && b !in v.a
    ensures Grown(v, q, x, b, v') && Wf(v')
  {
    hide InsertAt;
    v' := View(InsertAt(v.c, q, x), InsertAt(v.a, q, b), InsertAt(v.h, q, b.Length));
  }

  lemma MakeFit(v: View, cmp: Comparator, header: Node, max: nat, top: nat, q: nat, x: Node) returns (v': View)
    requires Sound(v, cmp, header, max, top) && q == PlaceIn(cmp, v.c, x.item)
    requires x.next !in v.a && 1 <= x.sz == x.next.Length <= max
    ensures Fits(v, cmp, header, max, q, x, v') && Owned(v) && Owned(v') && LinkedAll(v)
    ensures Tallest(v'.h, if x.sz > top then x.sz else top)
  {
    hide LinkedAll, Sorted, PlaceIn, Tallest;
    v' := Grow(v, q, x, x.next);
    TallestGrows(v.h, q, x.sz, v'.h, top);
  }

  /** The new node has its backward array, and no level is linked yet. */
  lemma FitHalf(v: View, cmp: Comparator, header: Node, max: nat, q: nat, x: Node, v': View, m: map<Cell, Node>,
          at: nat)
    requires Fits(v, cmp, header, max, q, x, v') && Owned(v') && Distinct(v.c) && Backed(v, m)
    ensures Distinct(v'.c) && Half(v, v', m + Array(x, x.next.Length, header), at, at)
  {
    FitsParts(v, cmp, header, max, q, x, v');
    AllDistinct(v');
    hide Fits, Distinct, Backed, Half, Owned;
    HalfStart(v, q, x, x.next, v', m, header, at);
  }

  /** Nodes that own different arrays are different. */
  lemma AllDistinct(v: View)
    requires Wf(v) && Owned(v)
    ensures Distinct(v.c)
  {
    forall p, q | 0 <= p < q < |v.c| ensures v.c[p] != v.c[q] {
      assert v.c[p].next == v.a[p] && v.c[q].next == v.a[q];
    }
  }

  /** An insertion that has linked every level is complete. */
  lemma Complete(v: View, cmp: Comparator, header: Node, max: nat, q: nat, x: Node, v': View, top: nat)
    requires Fits(v, cmp, header, max, q, x, v') && Owned(v') && Mixed(v, v', 0, max)
    requires Tallest(v'.h, top) && top <= max
    ensures Sound(v', cmp, header, max, top)
  {
    hide Linked, NextAt, PrevAt, LowerBound;
    ItemsGrow(v, q, x, v'.a[q], v');
    InsertKeepsSorted(cmp, ItemsOf(v.c[1..]), x.item);
  }

  /** Only the last node leads to the header on level 0. */
  lemma LastLeadsHome(v: View, cmp: Comparator, header: Node, max: nat, top: nat, p: nat)
    requires Sound(v, cmp, header, max, top) && p < |v.c|
    ensures v.c[p].next[0] == header <==> p == |v.c| - 1
  {
    NextOnGround(v.h, p, top);
    assert Linked(v, 0);
    assert v.a[p][0] == v.c[NextAt(v.h, p, 0)];
    assert v.c[0].next == v.a[0];
    assert p + 1 < |v.c| ==> v.c[p + 1].next == v.a[p + 1];
  }

  /** The nodes to be relinked: on each level below `hi`, the last before `q` that reaches it. */
  ghost predicate Recorded(v: View, q: nat, upd: array<Node?>, hi: nat)
    requires Wf(v) && 1 <= q <= |v.c|
    reads upd
  {
    hi <= upd.Length && forall j: nat :: j < hi && j < v.h[0] ==> upd[j] == v.c[PrevAt(v.h, q, j)]
  }

  /** Above the tallest tower only the header precedes. */
  lemma RecordHeader(v: View, q: nat, upd: array<Node?>, top: nat, hi: nat, header: Node)
    requires Wf(v) && 1 <= q <= |v.c| && v.c[0] == header && Tallest(v.h, top) && Recorded(v, q, upd, top)
    requires hi <= upd.Length && forall j :: top <= j < hi ==> upd[j] == header
    ensures Recorded(v, q, upd, hi)
  {
    forall j: nat | top <= j < hi && j < v.h[0] ensures PrevAt(v.h, q, j) == 0 {
      PrevUnique(v.h, q, j, 0);
    }
  }

  datatype Option<+T> = None | Some(value: T)

  /** The status codes of the library. */
  datatype Status = NodeNotDeleted | MemExhausted | RandgenError | DuplicateKey | KeyNotFound | KeyFound | Ok | Error

  /** What to do about an equal node: add, refuse, update the first, or update them all. */
  datatype Mode = AD | ND | UpOne | UpAll

  /** The nodes equal to `k` are those at the positions from `q` up to `e`. */
  ghost predicate RunIs(cmp: Comparator, c: seq<Node>, q: nat, e: nat, k: Item) {
    1 <= q <= e <= |c| && forall j :: 1 <= j < |c| ==> (Eq(cmp, c[j].item, k) <==> q <= j < e)
  }

  /** Where the run of nodes equal to `k` ends. */
  ghost function RunEnd(cmp: Comparator, c: seq<Node>, q: nat, k: Item): (e: nat)
    requires q <= |c|
    ensures q <= e <= |c|
    decreases |c| - q
  {
    if q < |c| && Eq(cmp, c[q].item, k) then RunEnd(cmp, c, q + 1, k) else q
  }

  lemma {:induction false} RunEndStops(cmp: Comparator, c: seq<Node>, q: nat, k: Item)
    requires q <= |c|
    ensures var e := RunEnd(cmp, c, q, k);
      (forall j :: q <= j < e ==> Eq(cmp, c[j].item, k)) && (e < |c| ==> !Eq(cmp, c[e].item, k))
    decreases |c| - q
  {
    if q < |c| && Eq(cmp, c[q].item, k) {
      RunEndStops(cmp, c, q + 1, k);
    }
  }

  lemma RunAtPlace(cmp: Comparator, c: seq<Node>, k: Item)
    requires |c| > 0 && Sorted(cmp, ItemsOf(c[1..]))
    ensures var q := PlaceIn(cmp, c, k); RunIs(cmp, c, q, RunEnd(cmp, c, q, k), k)
  {
    var q := PlaceIn(cmp, c, k);
    var e, s := RunEnd(cmp, c, q, k), ItemsOf(c[1..]);
    RunEndStops(cmp, c, q, k);
    LowerBoundSplits(cmp, s, k);
    forall j | 1 <= j < |c| ensures Eq(cmp, c[j].item, k) <==> q <= j < e {
      assert s[j - 1] == c[j].item;
      if e < j {
        assert s[e - 1] == c[e].item;
      }
    }
  }

  /** How many nodes the update of all equal nodes really updates, for a run of `m` followed by
      `after` more nodes, when the comparison of the header with the new node says `nilEq`.  The
      loop looks one node ahead, so it stops one short; at the end of the list it looks at the
      header instead of a node. */
  function UpdatedCount(m: nat, after: nat, nilEq: bool): nat {
    if m <= 1 then (if after == 1 && nilEq then 2 else 1)
    else if after == 0 && nilEq then m else m - 1
  }

  /** What the update loop sees one node ahead of position `at`. */
  lemma OneAhead(v: View, cmp: Comparator, q: nat, e: nat, k: Item, at: nat, top: nat)
    requires Wf(v) && Owned(v) && LinkedAll(v) && v.h[0] > 0 && Tallest(v.h, top) && RunIs(cmp, v.c, q, e, k)
      && q <= at < |v.c|
    ensures v.c[at].next.Length > 0 && v.c[at] != v.c[0] && q <= e <= |v.c|
    ensures if at + 1 < |v.c| then v.c[at].next[0] == v.c[at + 1] && v.c[at + 1] != v.c[0]
      && (Eq(cmp, v.c[at + 1].item, k) <==> at + 1 < e)
            else v.c[at].next[0] == v.c[0]
  {
    hide LinkedAll, Linked, Tallest;
    GroundLink(v, at, top);
    assert v.c[0].next == v.a[0] && v.c[at].next == v.a[at];
    assert at + 1 < |v.c| ==> v.c[at + 1].next == v.a[at + 1];
  }

  /** Where the update loop stops. */
  lemma CountIs(n: nat, q: nat, e: nat, at: nat, nilEq: bool)
    requires 1 <= q < e <= n && q < at <= n
    requires at == q + 1 || at < e || (nilEq && at == n && (e == at || (e == q + 1 && e + 1 == at)))
    requires at == n || (if at + 1 < n then e <= at + 1 else !nilEq)
    ensures UpdatedCount(e - q, n - e, nilEq) == at - q
  {
  }

  /** The nodes handed to the update function when those from `q` up to `e` are equal. */
  ghost predicate Updated(c: seq<Node>, q: nat, e: nat, mode: Mode, nilEq: bool, calls: seq<Node>)
    requires q < e <= |c|
  {
    match mode
    case UpOne => calls == [c[q]]
    case UpAll =>
      var n := UpdatedCount(e - q, |c| - e, nilEq);
      q + n <= |c| && calls == c[q..q + n]
    case _ => calls == []
  }

  /** Position `m` holds a node equal to `k`; no equal node is taller, and those as tall come
      later. */
  ghost predicate LeftmostTallest(v: View, cmp: Comparator, k: Item, m: nat)
    requires |v.c| == |v.h|
  {
    && 1 <= m < |v.c| && Eq(cmp, v.c[m].item, k)
    && forall p :: 1 <= p < |v.c| && Eq(cmp, v.c[p].item, k) ==> v.h[p] < v.h[m] || (v.h[p] == v.h[m] && m <= p)
  }

  /** What a search for `k` may answer. */
  ghost predicate SearchOutcome(v: View, cmp: Comparator, k: Item, found: Node?)
    requires |v.c| == |v.h| > 0
  {
    if found == null then !Present(cmp, ItemsOf(v.c[1..]), k)
    else exists m: nat :: m < |v.c| && found == v.c[m] && LeftmostTallest(v, cmp, k, m)
  }

  /** No node equal to `k` reaches above level `i`. */
  ghost predicate NoneAbove(v: View, cmp: Comparator, k: Item, i: nat)
    requires |v.c| == |v.h|
  {
    forall p :: 1 <= p < |v.c| && Eq(cmp, v.c[p].item, k) ==> v.h[p] <= i
  }

  lemma SearchStart(v: View, cmp: Comparator, header: Node, max: nat, top: nat, k: Item)
    requires Sound(v, cmp, header, max, top)
    ensures NoneAbove(v, cmp, k, top)
    ensures RunIs(cmp, v.c, PlaceIn(cmp, v.c, k), RunEnd(cmp, v.c, PlaceIn(cmp, v.c, k), k), k)
  {
    RunAtPlace(cmp, v.c, k);
  }

  /** The first node not less than `k` on level `i` is equal to it if any node on the level is,
      and is then the leftmost of the tallest. */
  lemma SearchStep(v: View, cmp: Comparator, header: Node, q: nat, k: Item, i: nat, p: nat)
    requires Wf(v) && Owned(v) && Linked(v, i) && i < v.h[0] && v.c[0] == header && 1 <= q <= |v.c|
      && p == PrevAt(v.h, q, i)
    requires RunIs(cmp, v.c, q, RunEnd(cmp, v.c, q, k), k) && NoneAbove(v, cmp, k, i + 1)
    ensures i < v.c[p].next.Length
    ensures var y := v.c[p].next[i];
      if y != header && Eq(cmp, y.item, k) then SearchOutcome(v, cmp, k, y) else NoneAbove(v, cmp, k, i)
  {
    hide NextAt, PrevAt, Present;
    var r := NextAt(v.h, p, i);
    NextSkips(v.h, p, i);
    PrevSkips(v.h, q, i);
    assert v.a[p][i] == v.c[r] && v.c[p].next == v.a[p];
    assert v.c[r].next == v.a[r] && v.c[0].next == v.a[0];
    if r != 0 && Eq(cmp, v.c[r].item, k) {
      assert LeftmostTallest(v, cmp, k, r);
    }
  }

  lemma NothingThere(v: View, cmp: Comparator, k: Item)
    requires |v.c| == |v.h| == 1
    ensures NoneAbove(v, cmp, k, 0)
  {
  }

  lemma SearchEnd(v: View, cmp: Comparator, header: Node, max: nat, top: nat, k: Item)
    requires Sound(v, cmp, header, max, top) && NoneAbove(v, cmp, k, 0)
    ensures SearchOutcome(v, cmp, k, null)
  {
    hide LinkedAll;
    AtPlace(v, cmp, header, max, top, PlaceIn(cmp, v.c, k), k);
  }

  lemma NoCalls(c: seq<Node>, q: nat, e: nat, nilEq: bool)
    requires q < e <= |c|
    ensures Updated(c, q, e, ND, nilEq, [])
  {
  }

  lemma GrownDiffers(v: View, q: nat, x: Node, b: array<Node>, v': View)
    ensures Grown(v, q, x, b, v') ==> v' != v
  {
  }

  /** What an insertion of `x` may do to the list `v`; `calls` are the nodes handed to the
      caller's update function. */
  ghost predicate InsertOutcome(v: View, cmp: Comparator, mode: Mode, level: nat, nilEq: bool, x: Node, b: array<Node>,
                                status: Status, calls: seq<Node>, v': View)
    requires |v.c| > 0
  {
    var s, q := ItemsOf(v.c[1..]), PlaceIn(cmp, v.c, x.item);
    if Present(cmp, s, x.item) && mode != AD then
      var e := RunEnd(cmp, v.c, q, x.item);
      && v' == v
      && status == (if mode == ND then DuplicateKey else Ok)
      && q < e && Updated(v.c, q, e, mode, nilEq, calls)
    else
      status == Ok && calls == [] && b.Length == level && Grown(v, q, x, b, v')
  }

  lemma NotInserted(v: View, cmp: Comparator, header: Node, max: nat, top: nat, mode: Mode, level: nat,
          nilEq: bool, x: Node)
    requires Sound(v, cmp, header, max, top) && mode != AD
    requires var q := PlaceIn(cmp, v.c, x.item); q < |v.c| && Eq(cmp, v.c[q].item, x.item)
    ensures var q := PlaceIn(cmp, v.c, x.item); var e := RunEnd(cmp, v.c, q, x.item);
      && RunIs(cmp, v.c, q, e, x.item) && q < e
      && forall calls :: Updated(v.c, q, e, mode, nilEq, calls) ==>
           InsertOutcome(v, cmp, mode, level, nilEq, x, x.next, if mode == ND then DuplicateKey else Ok, calls, v)
  {
    hide Linked, LinkedAll, Updated;
    RunAtPlace(cmp, v.c, x.item);
    AtPlace(v, cmp, header, max, top, PlaceIn(cmp, v.c, x.item), x.item);
  }

  lemma WasInserted(v: View, cmp: Comparator, mode: Mode, level: nat, nilEq: bool, x: Node, b: array<Node>, v': View)
    requires |v.c| > 0 && b.Length == level && Grown(v, PlaceIn(cmp, v.c, x.item), x, b, v')
    requires mode == AD || !Present(cmp, ItemsOf(v.c[1..]), x.item)
    ensures InsertOutcome(v, cmp, mode, level, nilEq, x, b, Ok, [], v')
  {
    hide Grown, Present, PlaceIn;
  }

  /** What a deletion may do to the list `v`.  `ask` stands for the caller's destroyer of node
      data, which may refuse unless forced; `asked` are the nodes it was called on.  `dst` tells
      whether there is a destroyer of nodes, `destroyed` are the nodes that it was given. */
  ghost predicate DeleteOutcome(v: View, cmp: Comparator, k: Item, ask: Option<Item -> bool>, force: bool, dst: bool,
                                status: Status, asked: seq<Node>, destroyed: seq<Node>, v': View)
    requires |v.c| == |v.a| > 0
  {
    var s, q := ItemsOf(v.c[1..]), PlaceIn(cmp, v.c, k);
    if !Present(cmp, s, k) then
      status == KeyNotFound && asked == [] && destroyed == [] && v' == v
    else
      && q < |v.c|
      && asked == (if ask.Some? then [v.c[q]] else [])
      && if ask.Some? && !ask.value(v.c[q].item) && !force
         then status == NodeNotDeleted && destroyed == [] && v' == v
         else status == Ok && destroyed == (if dst then [v.c[q]] else []) && Grown(v', q, v.c[q], v.a[q], v)
  }

  lemma DeleteCases(v: View, cmp: Comparator, header: Node, max: nat, top: nat, k: Item,
          ask: Option<Item -> bool>, force: bool, dst: bool)
    requires Sound(v, cmp, header, max, top)
    ensures |v.c| == |v.a| > 0
    ensures var q := PlaceIn(cmp, v.c, k);
      if q == |v.c| || !Eq(cmp, v.c[q].item, k) then DeleteOutcome(v, cmp, k, ask, force, dst, KeyNotFound, [], [], v)
      else
        var asked := if ask.Some? then [v.c[q]] else [];
        && (ask.Some? && !ask.value(v.c[q].item) && !force
          ==> DeleteOutcome(v, cmp, k, ask, force, dst, NodeNotDeleted, asked, [], v))
        && Present(cmp, ItemsOf(v.c[1..]), k)
  {
    hide Linked, LinkedAll, Grown;
  }

  lemma WasDeleted(v: View, cmp: Comparator, k: Item,
          ask: Option<Item -> bool>, force: bool, dst: bool, q: nat, v': View)
    requires |v.c| == |v.a| > 0 && Present(cmp, ItemsOf(v.c[1..]), k) && q == PlaceIn(cmp, v.c, k) && q < |v.c|
    requires ask.None? || ask.value(v.c[q].item) || force
    requires Grown(v', q, v.c[q], v.a[q], v)
    ensures DeleteOutcome(v, cmp, k, ask, force, dst, Ok, if ask.Some? then [v.c[q]] else [],
                          if dst then [v.c[q]] else [], v')
  {
    hide Grown, Present, PlaceIn;
  }

  /** Taking the tower `x` at `q` out of `w` leaves `u`. */
  ghost predicate Leaves(u: View, cmp: Comparator, header: Node, max: nat, top: nat, q: nat, x: Node,
          b: array<Node>, w: View) {
    && Wf(u) && Wf(w) && Grown(u, q, x, b, w) && u.c[0] == header && u.h[0] == max <= MAXLEVELS
    && Sorted(cmp, ItemsOf(u.c[1..])) && 1 <= b.Length <= top <= max
    && forall p :: 1 <= p < |u.h| ==> 1 <= u.h[p] <= top
  }

  lemma LeavesParts(u: View, cmp: Comparator, header: Node, max: nat, top: nat, q: nat, x: Node,
          b: array<Node>, w: View)
    requires Leaves(u, cmp, header, max, top, q, x, b, w)
    ensures |u.c| > 0 && |u.h| > 0 && Wf(u) && Wf(w) && Grown(u, q, x, b, w) && u.c[0] == header
      && u.h[0] == max && 1 <= b.Length <= top <= max
    ensures 1 <= q <= |u.c| == |u.h| == |w.c| - 1
    ensures u.c[q - 1] == w.c[q - 1] && (q < |u.c| ==> u.c[|u.c| - 1] == w.c[|u.c|])
    ensures forall p :: 1 <= p < |u.h| ==> 1 <= u.h[p] <= top
  {
  }

  lemma LeavesSound(u: View, cmp: Comparator, header: Node, max: nat, top: nat, q: nat, x: Node,
          b: array<Node>, w: View, top': nat)
    requires Leaves(u, cmp, header, max, top, q, x, b, w) && Owned(u) && LinkedAll(u)
    requires Tallest(u.h, top') && top' <= top
    ensures Sound(u, cmp, header, max, top')
  {
  }

  /** A view without the tower at `q`. */
  lemma Shrink(v': View, cmp: Comparator, header: Node, max: nat, top: nat, q: nat, x: Node) returns (v: View)
    requires Sound(v', cmp, header, max, top) && 1 <= q < |v'.c| && v'.c[q] == x
    ensures Owned(v) && Owned(v') && LinkedAll(v') && Leaves(v, cmp, header, max, top, q, x, x.next, v')
  {
    v := View(RemoveAt(v'.c, q), RemoveAt(v'.a, q), RemoveAt(v'.h, q));
    hide LinkedAll, Sorted, RemoveAt, Inserted, Tallest;
    assert v'.a[q] == x.next && v'.h[q] == x.next.Length;
    RemovedInserted(v'.c, q);
    RemovedInserted(v'.a, q);
    RemovedInserted(v'.h, q);
    ShrunkLeaves(v, cmp, header, max, top, q, x, x.next, v');
  }

  lemma ShrunkLeaves(v: View, cmp: Comparator, header: Node, max: nat, top: nat, q: nat, x: Node,
          b: array<Node>, v': View)
    requires Grown(v, q, x, b, v') && Sound(v', cmp, header, max, top) && |v.h| > 0
    ensures Owned(v) && Leaves(v, cmp, header, max, top, q, x, b, v')
  {
    hide LinkedAll, Sorted, Owned, Tallest;
    ShrunkWf(v, q, x, b, v');
    ItemsGrow(v, q, x, b, v');
    SortedWithout(cmp, ItemsOf(v.c[1..]), q - 1, x.item, ItemsOf(v'.c[1..]));
    ShrunkHeights(v.h, q, b.Length, v'.h, top);
  }

  /** The records of the descent hold for the list without the tower as well. */
  lemma RecordedWithout(v: View, q: nat, x: Node, b: array<Node>, v': View, upd: array<Node?>, top: nat)
    requires Grown(v, q, x, b, v') && Wf(v) && Wf(v') && q <= |v'.c| && Recorded(v', q, upd, top) && top <= v.h[0]
    ensures 1 <= q <= |v.c| && Recorded(v, q, upd, top)
  {
    forall j: nat | j < top && j < v.h[0] ensures upd[j] == v.c[PrevAt(v.h, q, j)] {
      PrevAfterInsert(v.h, q, b.Length, v'.h, j);
      var at := PrevAt(v.h, q, j);
      assert v'.c[at] == v.c[at];
    }
  }

  /** The first node not less than the probe. */
  lemma AtPlace(v: View, cmp: Comparator, header: Node, max: nat, top: nat, q: nat, k: Item)
    requires Sound(v, cmp, header, max, top) && q == PlaceIn(cmp, v.c, k)
    ensures q < |v.c| ==> v.c[q] != header && v.c[q].next == v.a[q] && v.c[q].next.Length > 0
    ensures q < |v.c| ==> (v.c[q].next[0] == header <==> q == |v.c| - 1)
    ensures Present(cmp, ItemsOf(v.c[1..]), k) <==> q < |v.c| && Eq(cmp, v.c[q].item, k)
  {
    hide Linked, LinkedAll;
    if q < |v.c| {
      assert v.c[q].next == v.a[q] && v.c[0].next == v.a[0];
      LastLeadsHome(v, cmp, header, max, top, q);
    }
  }

  lemma ShrunkWf(v: View, q: nat, x: Node, b: array<Node>, v': View)
    requires Grown(v, q, x, b, v') && Wf(v') && Owned(v')
    ensures Wf(v) && Owned(v) && v.c[0] == v'.c[0] && v.h[0] == v'.h[0]
  {
    forall p | 0 <= p < |v.c|
      ensures v.c[p] == v'.c[Raise(p, q)] && v.a[p] == v'.a[Raise(p, q)] && v.h[p] == v'.h[Raise(p, q)]
    {
    }
  }

  lemma ShrunkHeights(h: seq<nat>, q: nat, height: nat, h': seq<nat>, top: nat)
    requires Inserted(h, q, height, h') && 1 <= q && Tallest(h', top)
    ensures forall p :: 1 <= p < |h| ==> 1 <= h[p] <= top
    ensures 1 <= height <= top
  {
    assert h'[q] == height;
    forall p | 1 <= p < |h| ensures 1 <= h[p] <= top {
      assert h[p] == h'[Raise(p, q)];
    }
  }

  /** The height that the n-th number drawn gives. */
  function HeightFrom(words: seq<bv32>, n: nat, max: nat, top: nat): nat {
    if 1 <= max then LevelOf(Draw(words, n), max, top) else 0
  }

  /** A tower that may have `max` levels, over a list that has `top`, gets more than `k` exactly if it may
      have as many, the list has `k` already, and the n-th number drawn is below 2 to the 32 - k. */
  ghost predicate RisesAbove(lev: nat, words: seq<bv32>, n: nat, max: nat, top: nat, k: nat) {
    |words| == 624 && k <= 32 && (lev > k <==> k < max && k <= top && Output(words, n) as nat < Pow2(32 - k))
  }

  ghost predicate DrawnHeight(lev: nat, words: seq<bv32>, n: nat, max: nat, top: nat) {
    1 <= lev <= top + 1 && forall k :: 0 <= k <= 32 ==> RisesAbove(lev, words, n, max, top, k)
  }

  lemma HeightRises(words: seq<bv32>, n: nat, max: nat, top: nat, k: nat)
    requires |words| == 624 && 1 <= max && k <= 32
    ensures RisesAbove(HeightFrom(words, n, max, top), words, n, max, top, k)
  {
    var t := Draw(words, n);
    assert t == Output(words, n) as nat;
    hide Output, Pow2, LevelOf, Draw;
    LevelAboveIff(t, max, top, k);
  }

  lemma HeightIsDrawn(words: seq<bv32>, n: nat, max: nat, top: nat)
    requires |words| == 624 && 1 <= max
    ensures DrawnHeight(HeightFrom(words, n, max, top), words, n, max, top)
  {
    forall k | 0 <= k <= 32 ensures RisesAbove(HeightFrom(words, n, max, top), words, n, max, top, k) {
      HeightRises(words, n, max, top, k);
    }
    hide RisesAbove, Draw;
  }

  /** What a new list is made of besides itself: its generator, its header, all of whose pointers
      lead back to it, and, if wanted, the backward pointers. */
  method Pieces(max: nat, stat: MStat, double: bool) returns (r: Rand, x: Node, b: Back?)
    requires 1 <= max
    modifies stat
    ensures r.Valid() && r.words == SeedState(SEED_VALUE) && r.Drawn() == 0 && fresh(r) && fresh(r.mt)
    ensures fresh(x) && fresh(x.next) && x.sz == max == x.next.Length && forall i :: 0 <= i < max ==> x.next[i] == x
    ensures (b != null <==> double) && (b != null ==> fresh(b)) && Mirrored(b, View([x], [x.next], [max]))
    ensures stat.alloc_count == old(stat.alloc_count) + (if double then 5 else 4)
    ensures stat.freed_count == old(stat.freed_count)
  {
    hide Rand.Valid, SeedState, Distinct, Backed;
    stat.Alloc();
    r := new Rand.WithSeed(SEED_VALUE);
    stat.Alloc();
    x := Header(max, stat);
    b := null;
    if double {
      stat.Alloc();
      b := new Back(x, max);
      EmptyBacked(x, x.next, max);
    }
  }

  method Header(max: nat, stat: MStat) returns (x: Node)
    modifies stat
    ensures fresh(x) && fresh(x.next) && x.sz == max == x.next.Length && forall i :: 0 <= i < max ==> x.next[i] == x
    ensures stat.alloc_count == old(stat.alloc_count) + 2 && stat.freed_count == old(stat.freed_count)
  {
    stat.Alloc();
    var nil: Item := *;
    x := new Node(nil);
    stat.Alloc();
    var header := x;
    x.next := new Node[max](_ => header);
    x.sz := max;
  }

  /** A list.  `dst` tells whether the client has given a node destroyer, `stat` is the count of
      memory blocks, shared by all lists, and `back` is null in the single-linked build. */
  class SkipList {
    const cmp: Comparator
    const maxlevel: nat
    const header: Node
    const dst: bool
    const rng: Rand
    const stat: MStat
    const back: Back?
    var tail: Node
    var curlevel: nat
    var nodenum: nat
    ghost var v: View

    /** What the list holds, in level-0 order. */
    ghost function Items(): seq<Item>
      requires |v.c| > 0
      reads this
    {
      ItemsOf(v.c[1..])
    }

    ghost predicate Valid()
      reads this, v.c, v.a
    {
      && Sound(v, cmp, header, maxlevel, curlevel)
      && Counted(v, nodenum, tail)
    }

    /** The generator is sound and, in the doubly linked build, so are the backward pointers. */
    ghost predicate Ready()
      reads this, rng, rng.mt, back
    {
      rng.Valid() && Mirrored(back, v)
    }

    /** How many blocks a node takes: its array, or both its arrays. */
    ghost function PerNode(): nat { BlocksFor(1) }

    ghost function BlocksFor(n: nat): nat { if back == null then n else n + n }

    /** How many the list takes by itself: itself, its header, the header's arrays and the
        generator. */
    ghost function PerList(): nat { 3 + PerNode() }

    /** So many blocks have been allocated and freed. */
    twostate predicate Took(a: nat, f: nat)
      reads stat
    {
      stat.alloc_count == old(stat.alloc_count) + a && stat.freed_count == old(stat.freed_count) + f
    }

    /** So many numbers have been drawn. */
    twostate predicate Drew(k: nat)
      reads rng
    {
      rng.words == old(rng.words) && rng.Drawn() == old(rng.Drawn()) + k
    }

    /** The list has at most got more nodes, and for each its blocks and a number drawn. */
    twostate predicate Grew()
      reads this, stat, rng
    {
      && |old(v.c)| <= |v.c|
      && Took(BlocksFor(|v.c| - |old(v.c)|), 0) && Drew(|v.c| - |old(v.c)|)
    }

    /** The height that the next new node gets. */
    ghost function NextHeight(): (lev: nat)
      reads this, rng
    {
      HeightFrom(rng.words, rng.Drawn(), maxlevel, curlevel)
    }

    /** An empty list: the header alone, closing every level. */
    constructor (max: nat, cmp: Comparator, dst: bool, stat: MStat, double: bool)
      requires 1 <= max <= MAXLEVELS
      modifies stat
      ensures Valid() && Ready() && fresh(header) && fresh(header.next) && v == View([header], [header.next], [max])
      ensures this.cmp == cmp && maxlevel == max && curlevel == 1 && this.dst == dst && this.stat == stat
      ensures fresh(rng) && fresh(rng.mt) && rng.words == SeedState(SEED_VALUE) && rng.Drawn() == 0
      ensures (back != null <==> double) && (back != null ==> fresh(back))
      ensures stat.alloc_count == old(stat.alloc_count) + PerList() && stat.freed_count == old(stat.freed_count)
    {
      var r, x, b := Pieces(max, stat, double);
      this.cmp, this.dst, this.stat, rng, back := cmp, dst, stat, r, b;
      maxlevel, header, tail := max, x, x;
      curlevel, nodenum := 1, 0;
      v := View([x], [x.next], [max]);
      new;
      hide Sound, Rand.Valid, Distinct, Backed, SeedState;
      EmptySound(x, cmp, max);
    }

    lemma HeaderIsFirst(v: View, p: nat)
      requires Wf(v) && Owned(v) && v.c[0] == header && p < |v.c|
      ensures v.c[p] == header <==> p == 0
    {
      assert v.c[0].next == v.a[0] && v.c[p].next == v.a[p];
    }

    /** The comparison of the source, which must never see the header. */
    predicate IsLess(a: Node, b: Node)
      requires a != header && b != header
    {
      Less(cmp, a.item, b.item)
    }

    predicate IsEq(a: Node, b: Node)
      requires a != header && b != header
    {
      Eq(cmp, a.item, b.item)
    }

    /** The inner loop of every descent: along level `i` up to the last tower before `q`. */
    method Advance(x: Node, i: nat, probe: Node, ghost v: View, ghost p: nat, ghost q: nat)
      returns (y: Node, ghost at: nat)
      requires Wf(v) && Owned(v) && v.c[0] == header && i < v.h[0] && Linked(v, i)
      requires Splits(cmp, v.c, q, probe.item) && probe != header
      requires p < q && x == v.c[p] && i < v.h[p]
      ensures at == PrevAt(v.h, q, i) && y == v.c[at] && y.next == v.a[at]
    {
      y, at := x, p;
      while y.next[i] != header && IsLess(y.next[i], probe)
        invariant at < q && y == v.c[at] && i < v.h[at]
        decreases q - at
      {
        HeaderIsFirst(v, NextAt(v.h, at, i));
        at := NextAt(v.h, at, i);
        y := y.next[i];
      }
      HeaderIsFirst(v, NextAt(v.h, at, i));
      NextSkips(v.h, at, i);
      PrevUnique(v.h, q, i, at);
    }

    /** Gives a node its array of `lev` pointers, all to the header, or both its arrays. */
    method NewNode(x: Node, lev: nat)
      modifies x, stat, back
      ensures x.sz == lev == x.next.Length && fresh(x.next)
      ensures forall i :: 0 <= i < lev ==> x.next[i] == header
      ensures back != null ==> back.prev == old(back.prev) + Array(x, lev, header)
      ensures Took(PerNode(), 0)
    {
      stat.Alloc();
      x.next := new Node[lev](_ => header);
      if back != null {
        stat.Alloc();
        back.Grow(x, lev, header);
      }
      x.sz := lev;
    }

    // ----- insertion

    /** The descent of the one-pass insertion, linking each level on the way down. */
    method LinkDown(nnode: Node, newLevel: nat, top: nat, ghost v: View, ghost q: nat, ghost v': View)
      requires Fits(v, cmp, header, maxlevel, q, nnode, v') && Owned(v) && Owned(v') && LinkedAll(v)
      requires nnode.sz == newLevel <= top <= maxlevel && Halfway(back, v, v', top, top)
      modifies v.a, nnode.next, back
      ensures Owned(v') && Mixed(v, v', 0, maxlevel) && Halfway(back, v, v', 0, maxlevel)
    {
      hide Fits, Wf, Mixed, LinkedAll, Linked, NextAt, PrevAt, Inserted, Owned, Splits, Halfway;
      FitsParts(v, cmp, header, maxlevel, q, nnode, v');
      var x, i := header, top;
      ghost var p: nat := 0;
      NothingYet(v, v', top);
      AboveBoth(v, q, nnode, nnode.next, v', top, top, top, maxlevel);
      while i > 0
        invariant 0 <= i <= top && p < q && x == v.c[p] && i <= v.h[p]
        invariant Mixed(v, v', i, maxlevel) && Halfway(back, v, v', i, maxlevel) && Owned(v) && Owned(v')
        modifies v.a, nnode.next, back
      {
        i := i - 1;
        NotYet(v, v', i + 1, maxlevel, i);
        x, p := Advance(x, i, nnode, v, p, q);
        if i < newLevel {
          LinkBoth(back, x, nnode, i, v, q, v', i + 1, maxlevel);
        } else {
          AboveBoth(v, q, nnode, nnode.next, v', i + 1, maxlevel, i, maxlevel);
        }
      }
    }

    /** On the levels the tower does not reach there is nothing to do in either direction. */
    lemma AboveBoth(v: View, q: nat, x: Node, b: array<Node>, v': View, lo: nat, hi: nat, lo': nat, hi': nat)
      requires Grown(v, q, x, b, v') && Wf(v) && Wf(v') && Mixed(v, v', lo, hi) && Halfway(back, v, v', lo, hi)
      requires lo == lo' || (b.Length <= lo && b.Length <= lo')
      requires hi == hi' || (b.Length <= hi && b.Length <= hi')
      ensures Mixed(v, v', lo', hi') && Halfway(back, v, v', lo', hi')
    {
      hide Mixed, Half, Grown, Distinct;
      MixedAbove(v, q, x, b, v', lo, hi, lo', hi');
      if back != null {
        HalfAbove(v, q, x, b, v', back.prev, lo, hi, lo', hi');
      }
    }

    /** Builds the tower of a new node, not yet linked, and raises the list to its height. */
    method Prepare(nnode: Node, newLevel: nat, ghost q: nat) returns (ghost v': View)
      requires Valid() && Mirrored(back, v) && nnode !in v.c && 1 <= newLevel <= maxlevel
        && q == PlaceIn(cmp, v.c, nnode.item)
      modifies nnode, this`curlevel, stat, back
      ensures fresh(nnode.next) && nnode.sz == newLevel == nnode.next.Length
      ensures Fits(v, cmp, header, maxlevel, q, nnode, v')
      ensures Owned(v) && Owned(v') && LinkedAll(v) && Counted(v, nodenum, tail)
      ensures curlevel == (if newLevel > old(curlevel) then newLevel else old(curlevel)) <= maxlevel
      ensures Tallest(v'.h, curlevel)
      ensures Halfway(back, v, v', curlevel, curlevel) && Took(PerNode(), 0)
    {
      hide Sound, Fits, PlaceIn, Owned, LinkedAll, Tallest, Counted, Backed, Half, Distinct;
      SoundBefore(v, cmp, header, maxlevel, curlevel);
      ghost var m := if back != null then back.prev else map[];
      NewNode(nnode, newLevel);
      v' := MakeFit(v, cmp, header, maxlevel, curlevel, q, nnode);
      if newLevel > curlevel {
        curlevel := newLevel;
      }
      if back != null {
        FitHalf(v, cmp, header, maxlevel, q, nnode, v', m, curlevel);
      }
    }

    /** The end of both insertions: the tail and the count. */
    method FinishInsert(nnode: Node, ghost q: nat, ghost v': View)
      requires Counted(v, nodenum, tail) && nnode.next.Length > 0
      requires Fits(v, cmp, header, maxlevel, q, nnode, v') && Owned(v') && Mixed(v, v', 0, maxlevel)
      requires Tallest(v'.h, curlevel) && curlevel <= maxlevel && Halfway(back, v, v', 0, maxlevel)
      modifies this`tail, this`nodenum, this`v
      ensures Valid() && v == v' && Grown(old(v), q, nnode, nnode.next, v) && Mirrored(back, v)
    {
      hide Sound, Fits, Wf, Owned, Mixed, Tallest, Grown, Half, Backed, Distinct;
      FitsEnds(v, cmp, header, maxlevel, q, nnode, v');
      Complete(v, cmp, header, maxlevel, q, nnode, v', curlevel);
      LastLeadsHome(v', cmp, header, maxlevel, curlevel, q);
      if back != null {
        HalfWhole(v, v', back.prev);
      }
      if nnode.next[0] == header {
        tail := nnode;
      }
      nodenum := nodenum + 1;
      v := v';
    }

    /** Links and counts a tower that has been built. */
    method LinkAndCount(nnode: Node, newLevel: nat, ghost q: nat, ghost v': View)
      requires Fits(v, cmp, header, maxlevel, q, nnode, v') && Owned(v) && Owned(v') && LinkedAll(v)
      requires 1 <= nnode.sz == newLevel == nnode.next.Length <= curlevel <= maxlevel
      requires Counted(v, nodenum, tail) && Tallest(v'.h, curlevel) && Halfway(back, v, v', curlevel, curlevel)
      modifies this`tail, this`nodenum, this`v, v.a, nnode.next, back
      ensures Valid() && v == v' && Grown(old(v), q, nnode, nnode.next, v) && Mirrored(back, v)
    {
      hide Sound, Fits, Counted, Owned, LinkedAll, Tallest, Mixed, Grown, Halfway, Mirrored;
      LinkDown(nnode, newLevel, curlevel, v, q, v');
      FinishInsert(nnode, q, v');
    }

    /** The one-pass insertion. */
    method InsertPlain(nnode: Node, newLevel: nat)
      requires Valid() && Mirrored(back, v) && nnode !in v.c && 1 <= newLevel <= maxlevel
      modifies this, v.a, nnode, stat, back
      ensures Valid() && Mirrored(back, v) && Took(PerNode(), 0)
      ensures fresh(nnode.next) && nnode.next.Length == newLevel
      ensures Grown(old(v), PlaceIn(cmp, old(v.c), nnode.item), nnode, nnode.next, v)
      ensures curlevel == if newLevel > old(curlevel) then newLevel else old(curlevel)
    {
      hide Sound, Fits, Counted, PlaceIn, Owned, LinkedAll, Tallest, Mixed, Grown, Halfway, Mirrored;
      SoundBefore(v, cmp, header, maxlevel, curlevel);
      ghost var q := PlaceIn(cmp, v.c, nnode.item);
      ghost var v' := Prepare(nnode, newLevel, q);
      LinkAndCount(nnode, newLevel, q, v');
    }

    /** The start of the two-pass operations: the descent, which records on each level the
        last node before the probe's place, and the node that it stops in front of. */
    method Descend(probe: Node, top: nat, upd: array<Node?>, ghost v: View, ghost q: nat) returns (x: Node)
      requires Wf(v) && Owned(v) && LinkedAll(v) && |v.c| == |v.h| && v.c[0] == header
      requires Splits(cmp, v.c, q, probe.item) && 1 <= q <= |v.c| && probe != header
      requires 1 <= top <= v.h[0] && top <= upd.Length && Tallest(v.h, top)
      modifies upd
      ensures Recorded(v, q, upd, top) && upd[0] == v.c[q - 1]
      ensures x == if q < |v.c| then v.c[q] else header
    {
      hide Wf, LinkedAll, Linked, NextAt, Owned, Splits, Tallest;
      x := header;
      var i := top;
      ghost var p: nat := 0;
      while i > 0
        invariant 0 <= i <= top && p < q && x == v.c[p] && i <= v.h[p]
        invariant forall j: nat :: i <= j < top && j < v.h[0] ==> upd[j] == v.c[PrevAt(v.h, q, j)]
        invariant i < top ==> p == PrevAt(v.h, q, i)
        invariant Owned(v) && LinkedAll(v)
        modifies upd
      {
        i := i - 1;
        ALevel(v, i);
        x, p := Advance(x, i, probe, v, p, q);
        upd[i] := x;
      }
      PrevOnGround(v.h, q, top);
      GroundLink(v, q - 1, top);
      x := x.next[0];
    }

    /** The descent with its array of records, which starts out uninitialised. */
    method Trace(probe: Node, ghost q: nat) returns (x: Node, upd: array<Node?>)
      requires Valid() && probe != header && q == PlaceIn(cmp, v.c, probe.item)
      ensures fresh(upd) && upd.Length == MAXLEVELS && Wf(v) && 1 <= q <= |v.c|
      ensures Recorded(v, q, upd, curlevel) && upd[0] == v.c[q - 1]
      ensures x == if q < |v.c| then v.c[q] else header
    {
      SoundParts(v, cmp, header, maxlevel, curlevel, probe.item);
      hide Sound, Wf, Counted, Recorded, PlaceIn, Owned, LinkedAll, Splits, Tallest;
      upd := new Node?[MAXLEVELS];
      x := Descend(probe, curlevel, upd, v, q);
    }

    /** On the levels the list did not have yet, the header comes before the new tower. */
    method RecordAbove(upd: array<Node?>, top: nat, newLevel: nat, ghost v: View, ghost q: nat)
      requires Wf(v) && 1 <= q <= |v.c| && v.c[0] == header && Tallest(v.h, top)
      requires Recorded(v, q, upd, top) && newLevel <= upd.Length
      modifies upd
      ensures Recorded(v, q, upd, newLevel)
    {
      hide Wf, Tallest;
      if newLevel > top {
        for i := top to newLevel
          invariant forall j :: top <= j < i ==> upd[j] == header
          invariant Recorded(v, q, upd, top)
        {
          upd[i] := header;
        }
      }
      RecordHeader(v, q, upd, top, newLevel, header);
    }

    /** The second pass: relinks the recorded nodes, from the bottom level up. */
    method LinkUp(nnode: Node, newLevel: nat, upd: array<Node?>, ghost v: View, ghost q: nat, ghost v': View)
      requires Fits(v, cmp, header, maxlevel, q, nnode, v') && Owned(v) && Owned(v') && LinkedAll(v)
      requires nnode.sz == newLevel <= maxlevel && Wf(v) && 1 <= q <= |v.c| && Recorded(v, q, upd, newLevel)
      requires Halfway(back, v, v', 0, 0)
      modifies v.a, nnode.next, back
      ensures Owned(v') && Mixed(v, v', 0, maxlevel) && Halfway(back, v, v', 0, maxlevel)
    {
      hide Fits, Wf, Mixed, LinkedAll, Linked, NextAt, PrevAt, Inserted, Owned, Splits, Halfway;
      FitsParts(v, cmp, header, maxlevel, q, nnode, v');
      NothingYet(v, v', 0);
      for i := 0 to newLevel
        invariant Mixed(v, v', 0, i) && Halfway(back, v, v', 0, i) && Owned(v) && Owned(v')
        invariant Recorded(v, q, upd, newLevel)
        modifies v.a, nnode.next, back
      {
        OwnedAt(v, PrevAt(v.h, q, i));
        LinkBoth(back, upd[i], nnode, i, v, q, v', 0, i);
      }
      AboveBoth(v, q, nnode, nnode.next, v', 0, newLevel, 0, maxlevel);
    }

    method LinkUpAndCount(nnode: Node, newLevel: nat, top: nat, upd: array<Node?>, ghost q: nat, ghost v': View)
      requires Fits(v, cmp, header, maxlevel, q, nnode, v') && Owned(v) && Owned(v') && LinkedAll(v)
      requires 1 <= nnode.sz == newLevel == nnode.next.Length <= curlevel <= maxlevel <= upd.Length
      requires Counted(v, nodenum, tail) && Tallest(v.h, top) && Tallest(v'.h, curlevel)
      requires Wf(v) && 1 <= q <= |v.c| && v.c[0] == header && Recorded(v, q, upd, top)
      requires Halfway(back, v, v', 0, 0)
      modifies this`tail, this`nodenum, this`v, v.a, nnode.next, upd, back
      ensures Valid() && v == v' && Grown(old(v), q, nnode, nnode.next, v) && Mirrored(back, v)
    {
      hide Sound, Fits, Counted, Owned, LinkedAll, Tallest, Mixed, Grown, Wf, Recorded, Halfway, Mirrored;
      RecordAbove(upd, top, newLevel, v, q);
      LinkUp(nnode, newLevel, upd, v, q, v');
      FinishInsert(nnode, q, v');
    }

    lemma HalfAnywhere(v: View, v': View, at: nat)
      requires Halfway(back, v, v', at, at)
      ensures Halfway(back, v, v', 0, 0)
    {
      hide BackAt, Sized, Distinct;
    }

    /** Builds the tower and links it after the recorded nodes. */
    method AddTower(upd: array<Node?>, nnode: Node, newLevel: nat)
      requires Valid() && Mirrored(back, v) && nnode !in v.c && 1 <= newLevel <= maxlevel && upd.Length == MAXLEVELS
      requires Wf(v) && Recorded(v, PlaceIn(cmp, v.c, nnode.item), upd, curlevel)
      modifies this, v.a, nnode, upd, stat, back
      ensures Valid() && Mirrored(back, v) && Took(PerNode(), 0)
      ensures fresh(nnode.next) && nnode.next.Length == newLevel
      ensures Grown(old(v), PlaceIn(cmp, old(v.c), nnode.item), nnode, nnode.next, v)
      ensures curlevel == if newLevel > old(curlevel) then newLevel else old(curlevel)
    {
      hide Sound, Fits, Counted, PlaceIn, Owned, LinkedAll, Tallest, Mixed, Grown, Splits, Wf, Recorded, Halfway,
        Mirrored;
      ghost var q := PlaceIn(cmp, v.c, nnode.item);
      var top := curlevel;
      SoundParts(v, cmp, header, maxlevel, top, nnode.item);
      ghost var v' := Prepare(nnode, newLevel, q);
      HalfAnywhere(v, v', curlevel);
      LinkUpAndCount(nnode, newLevel, top, upd, q, v');
    }

    lemma MayDraw()
      requires Valid() && Ready()
      ensures |rng.words| == 624 && 1 <= maxlevel
    {
    }

    /** A new node after the recorded ones, of the height that the next number drawn gives. */
    method AddNodeAndUpdateLinks(upd: array<Node?>, nnode: Node)
      requires Valid() && Ready() && nnode !in v.c && upd.Length == MAXLEVELS
      requires Wf(v) && Recorded(v, PlaceIn(cmp, v.c, nnode.item), upd, curlevel)
      modifies this, v.a, nnode, upd, stat, back, rng, rng.mt
      ensures Valid() && Ready() && fresh(nnode.next) && Took(PerNode(), 0) && Drew(1)
      ensures DrawnHeight(nnode.next.Length, rng.words, old(rng.Drawn()), maxlevel, old(curlevel))
      ensures nnode.next.Length == old(NextHeight())
      ensures Grown(old(v), PlaceIn(cmp, old(v.c), nnode.item), nnode, nnode.next, v)
    {
      hide Sound, Wf, Counted, Recorded, PlaceIn, Grown, Owned, LinkedAll, Splits, Tallest, LevelOf, Mirrored,
        Rand.Valid, Rand.Drawn, Draw, DrawnHeight;
      SoundParts(v, cmp, header, maxlevel, curlevel, nnode.item);
      MayDraw();
      HeightIsDrawn(rng.words, rng.Drawn(), maxlevel, curlevel);
      var newLevel := rng.GenLevel(maxlevel, curlevel);
      AddTower(upd, nnode, newLevel);
    }

    /** The one-pass insertion of a new node, duplicates allowed. */
    method InsertAD(nnode: Node) returns (status: Status)
      requires Valid() && Ready() && nnode !in v.c
      modifies this, v.a, nnode, stat, back, rng, rng.mt
      ensures Valid() && Ready() && status == Ok && fresh(nnode.next) && Took(PerNode(), 0) && Drew(1)
      ensures DrawnHeight(nnode.next.Length, rng.words, old(rng.Drawn()), maxlevel, old(curlevel))
      ensures nnode.next.Length == old(NextHeight())
      ensures Grown(old(v), PlaceIn(cmp, old(v.c), nnode.item), nnode, nnode.next, v)
    {
      hide Sound, Wf, Counted, PlaceIn, Grown, Owned, LinkedAll, Splits, Tallest, LevelOf, Mirrored, Rand.Valid,
        Rand.Drawn, Draw, DrawnHeight;
      SoundParts(v, cmp, header, maxlevel, curlevel, nnode.item);
      MayDraw();
      HeightIsDrawn(rng.words, rng.Drawn(), maxlevel, curlevel);
      var newLevel := rng.GenLevel(maxlevel, curlevel);
      InsertPlain(nnode, newLevel);
      status := Ok;
    }

    // ----- deletion

    /** The unlinking loop; its `break` fires exactly at the victim's height. */
    method UnlinkAll(x: Node, top: nat, upd: array<Node?>, ghost v: View, ghost q: nat, ghost v': View)
      requires Grown(v, q, x, x.next, v') && Wf(v) && Wf(v') && Owned(v) && Owned(v') && LinkedAll(v')
      requires 1 <= x.next.Length <= top <= maxlevel == v.h[0] && Recorded(v, q, upd, top)
      requires Halfway(back, v, v', 0, maxlevel)
      modifies v'.a, back
      ensures Owned(v) && LinkedAll(v) && x.next[0] == old(x.next[0]) && Halfway(back, v, v', maxlevel, maxlevel)
    {
      hide Grown, Wf, Owned, Mixed, LinkedAll, Linked, NextAt, PrevAt, Halfway;
      GrownSizes(v, q, x, x.next, v');
      AllThere(v, v');
      var i := 0;
      while i < top
        invariant 0 <= i <= x.next.Length
        invariant Mixed(v, v', i, maxlevel) && Halfway(back, v, v', i, maxlevel) && Owned(v) && Owned(v')
        invariant x.next[0] == old(x.next[0])
        modifies v'.a, back
      {
        OwnedAt(v, PrevAt(v.h, q, i));
        StillThere(v, v', i, maxlevel, i);
        WhoLeadsTo(v, q, x, x.next, v', i);
        GrownArray(v, q, x, x.next, v', PrevAt(v.h, q, i));
        if upd[i].next[i] != x {
          break;
        }
        UnlinkBoth(back, upd[i], x, i, v, q, v', maxlevel);
        i := i + 1;
      }
      AboveBoth(v, q, x, x.next, v', i, maxlevel, maxlevel, maxlevel);
      NoneThere(v, v', maxlevel, maxlevel);
    }

    /** Lowers the level to the tallest tower left. */
    method AdjustCurLevel(ghost v: View)
      requires Wf(v) && Owned(v) && LinkedAll(v) && v.c[0] == header && v.h[0] == maxlevel
      requires 1 <= curlevel <= maxlevel && forall p :: 1 <= p < |v.h| ==> 1 <= v.h[p] <= curlevel
      modifies this`curlevel
      ensures Tallest(v.h, curlevel) && curlevel <= old(curlevel)
    {
      hide LinkedAll, NextAt;
      var top := curlevel - 1;
      while top > 0
        invariant 0 <= top < curlevel <= old(curlevel)
        invariant top + 1 == curlevel
        invariant forall p :: 1 <= p < |v.h| ==> 1 <= v.h[p] <= curlevel
      {
        ALevel(v, top);
        NextSkips(v.h, 0, top);
        assert header.next[top] == v.c[NextAt(v.h, 0, top)];
        HeaderIsFirst(v, NextAt(v.h, 0, top));
        if header.next[top] != header {
          assert v.h[NextAt(v.h, 0, top)] == curlevel;
          break;
        }
        top := top - 1;
        curlevel := curlevel - 1;
      }
    }

    /** Frees the arrays of a node that has been unlinked and hands it to the node destroyer. */
    method DestroyNode(x: Node) returns (destroyed: seq<Node>)
      modifies stat, back
      ensures destroyed == if dst then [x] else []
      ensures Took(0, PerNode()) && (back != null ==> back.prev == Without(old(back.prev), x))
    {
      if back != null {
        stat.Free();
        back.Release(x);
      }
      stat.Free();
      destroyed := if dst then [x] else [];
    }

    lemma Released(v: View, q: nat, x: Node, b: array<Node>, w: View, m: map<Cell, Node>, at: nat)
      requires Grown(v, q, x, b, w) && Wf(v) && Owned(v) && Distinct(w.c) && Half(v, w, m, at, at)
      ensures Distinct(v.c) && Backed(v, Without(m, x))
    {
      AllDistinct(v);
      hide Distinct, Half, Backed, Owned, Grown;
      HalfEnd(v, q, x, b, w, m, at);
    }

    /** The end of a deletion: tail, node, level and count. */
    method FinishDelete(x: Node, upd: array<Node?>, ghost v: View, ghost q: nat) returns (destroyed: seq<Node>)
      requires Leaves(v, cmp, header, maxlevel, curlevel, q, x, x.next, this.v) && Owned(v) && LinkedAll(v)
      requires Counted(this.v, nodenum, tail) && x.next.Length > 0 && |v.c| > 0
      requires x.next[0] == header <==> q == |v.c|
      requires upd.Length > 0 && 1 <= q <= |v.c| && upd[0] == v.c[q - 1]
      requires Halfway(back, v, this.v, maxlevel, maxlevel)
      modifies this`tail, this`curlevel, this`nodenum, this`v, stat, back
      ensures Valid() && this.v == v && Mirrored(back, v)
      ensures destroyed == (if dst then [x] else []) && Took(0, PerNode())
    {
      hide Sorted, LinkedAll, Owned, Grown, Tallest, Leaves, Wf, Distinct, Backed, Half;
      LeavesParts(v, cmp, header, maxlevel, curlevel, q, x, x.next, this.v);
      if x.next[0] == header {
        tail := upd[0];
      }
      if back != null {
        Released(v, q, x, x.next, this.v, back.prev, maxlevel);
      }
      destroyed := DestroyNode(x);
      ghost var top := curlevel;
      AdjustCurLevel(v);
      LeavesSound(v, cmp, header, maxlevel, top, q, x, x.next, this.v, curlevel);
      nodenum := nodenum - 1;
      this.v := v;
    }

    /** Unlinks the node at `q` from every level. */
    method UnlinkNode(x: Node, upd: array<Node?>, ghost w: View, ghost q: nat) returns (ghost u: View)
      requires Sound(w, cmp, header, maxlevel, curlevel) && Wf(w) && 1 <= q < |w.c| && w.c[q] == x
      requires Recorded(w, q, upd, curlevel) && Mirrored(back, w)
      modifies w.a, back
      ensures Leaves(u, cmp, header, maxlevel, curlevel, q, x, x.next, w) && Owned(u) && LinkedAll(u)
      ensures x.next.Length > 0 && x.next[0] == old(x.next[0]) && Halfway(back, u, w, maxlevel, maxlevel)
    {
      assert x.next == w.a[q];
      hide Sound, Wf, Owned, LinkedAll, Recorded, Leaves, Grown, Distinct, Backed, Half;
      u := Shrink(w, cmp, header, maxlevel, curlevel, q, x);
      LeavesParts(u, cmp, header, maxlevel, curlevel, q, x, x.next, w);
      RecordedWithout(u, q, x, x.next, w, upd, curlevel);
      if back != null {
        GrownSizes(u, q, x, x.next, w);
        WholeHalf(u, w, back.prev);
      }
      UnlinkAll(x, curlevel, upd, u, q, w);
    }

    /** Takes out the node at `q`, given the nodes recorded before it. */
    method RemoveNode(x: Node, upd: array<Node?>, ghost q: nat) returns (destroyed: seq<Node>)
      requires Valid() && Mirrored(back, v) && Wf(v) && 1 <= q < |v.c| && v.c[q] == x && Recorded(v, q, upd, curlevel)
      requires upd.Length > 0 && upd[0] == v.c[q - 1]
      requires x.next.Length > 0 && (x.next[0] == header <==> q == |v.c| - 1)
      modifies this, v.a, stat, back
      ensures Valid() && Mirrored(back, v) && Grown(v, q, x, x.next, old(v))
      ensures destroyed == (if dst then [x] else []) && Took(0, PerNode())
    {
      hide Sound, Wf, Owned, LinkedAll, Counted, Recorded, Leaves, Grown, Mirrored, Halfway;
      ghost var w := v;
      ghost var u := UnlinkNode(x, upd, w, q);
      LeavesParts(u, cmp, header, maxlevel, curlevel, q, x, x.next, w);
      destroyed := FinishDelete(x, upd, u, q);
    }

    /** The rest of a deletion, once the descent has stopped in front of `x`. */
    method DeleteFound(x: Node, probe: Node, ask: Option<Item -> bool>, force: bool, upd: array<Node?>, ghost q: nat)
      returns (status: Status, asked: seq<Node>, destroyed: seq<Node>)
      requires Valid() && Mirrored(back, v) && probe != header && q == PlaceIn(cmp, v.c, probe.item)
      requires Wf(v) && 1 <= q <= |v.c| && x == (if q < |v.c| then v.c[q] else header)
      requires Recorded(v, q, upd, curlevel) && upd.Length > 0 && upd[0] == v.c[q - 1]
      modifies this, v.a, stat, back
      ensures Valid() && Mirrored(back, v) && Took(0, if status == Ok then PerNode() else 0)
      ensures DeleteOutcome(old(v), cmp, probe.item, ask, force, dst, status, asked, destroyed, v)
    {
      hide Sound, Wf, Counted, Recorded, PlaceIn, Grown, Present, DeleteOutcome, Mirrored;
      AtPlace(v, cmp, header, maxlevel, curlevel, q, probe.item);
      DeleteCases(v, cmp, header, maxlevel, curlevel, probe.item, ask, force, dst);
      if x == header || !IsEq(x, probe) {
        return KeyNotFound, [], [];
      }
      asked := [];
      if ask.Some? {
        asked := [x];
        if !ask.value(x.item) && !force {
          return NodeNotDeleted, asked, [];
        }
      }
      ghost var w := v;
      destroyed := RemoveNode(x, upd, q);
      WasDeleted(w, cmp, probe.item, ask, force, dst, q, v);
      status := Ok;
    }

    /** Deletes the first node equal to the probe.  `asked` are the nodes whose data the client was
        asked to destroy, `destroyed` those given to the node destroyer. */
    method DeleteI(probe: Node, ask: Option<Item -> bool>, force: bool)
      returns (status: Status, asked: seq<Node>, destroyed: seq<Node>)
      requires Valid() && Mirrored(back, v) && probe != header
      modifies this, v.a, stat, back
      ensures Valid() && Mirrored(back, v) && Took(0, if status == Ok then PerNode() else 0)
      ensures DeleteOutcome(old(v), cmp, probe.item, ask, force, dst, status, asked, destroyed, v)
    {
      hide Sound, Wf, Counted, Recorded, PlaceIn, DeleteOutcome, Mirrored;
      SoundBefore(v, cmp, header, maxlevel, curlevel);
      ghost var q := PlaceIn(cmp, v.c, probe.item);
      var x, upd := Trace(probe, q);
      status, asked, destroyed := DeleteFound(x, probe, ask, force, upd, q);
    }

    lemma NothingToDelete(k: Item, ask: Option<Item -> bool>, force: bool)
      requires Valid() && nodenum == 0
      ensures DeleteOutcome(v, cmp, k, ask, force, dst, KeyNotFound, [], [], v)
    {
    }

    /** Deletion, forced or not: an empty list is not searched. */
    method Delete(probe: Node, ask: Option<Item -> bool>, force: bool)
      returns (status: Status, asked: seq<Node>, destroyed: seq<Node>)
      requires Valid() && Mirrored(back, v) && probe != header
      modifies this, v.a, stat, back
      ensures Valid() && Mirrored(back, v) && Took(0, if status == Ok then PerNode() else 0)
      ensures DeleteOutcome(old(v), cmp, probe.item, ask, force, dst, status, asked, destroyed, v)
    {
      hide Sound, Counted, DeleteOutcome, Mirrored;
      status, asked, destroyed := KeyNotFound, [], [];
      if nodenum > 0 {
        status, asked, destroyed := DeleteI(probe, ask, force);
      } else {
        NothingToDelete(probe.item, ask, force);
      }
    }

    /** The update loop, as written: it updates `n`, steps on, and goes on while the node after
        the one it is now on is equal.  `nilEq` is what the comparator makes of the header. */
    method UpdateNodeData(n: Node, newnode: Node, mode: Mode, nilEq: bool, ghost v: View, ghost q: nat, ghost e: nat)
      returns (calls: seq<Node>)
      requires Wf(v) && Owned(v) && LinkedAll(v) && v.c[0] == header && Tallest(v.h, curlevel) && v.h[0] > 0
      requires RunIs(cmp, v.c, q, e, newnode.item) && q < e && n == v.c[q] && newnode != header
      requires mode == UpOne || mode == UpAll
      ensures Updated(v.c, q, e, mode, nilEq, calls)
    {
      OneAhead(v, cmp, q, e, newnode.item, q, curlevel);
      hide LinkedAll, Tallest, Wf, Owned, RunIs, UpdatedCount;
      calls := [n];
      if mode == UpOne {
        return;
      }
      var y := n.next[0];
      ghost var at := q + 1;
      while y != header
        invariant q < at <= |v.c| && calls == v.c[q..at]
        invariant y == if at < |v.c| then v.c[at] else header
        invariant at == q + 1 || at < e || (nilEq && at == |v.c| && (e == at || (e == q + 1 && e + 1 == at)))
        invariant at < |v.c| ==> y != header
        decreases |v.c| - at
      {
        OneAhead(v, cmp, q, e, newnode.item, at, curlevel);
        var z := y.next[0];
        if !(if z == header then nilEq else IsEq(z, newnode)) {
          assert if at + 1 < |v.c| then e <= at + 1 else !nilEq;
          break;
        }
        assert v.c[q..at] + [v.c[at]] == v.c[q..at + 1];
        calls := calls + [y];
        y := z;
        at := at + 1;
      }
      CountIs(|v.c|, q, e, at, nilEq);
    }

    /** An equal node stands in the way of an insertion that does not add duplicates. */
    method MeetEqual(x: Node, newnode: Node, mode: Mode, nilEq: bool, ghost level: nat, ghost q: nat)
      returns (status: Status, calls: seq<Node>)
      requires Valid() && newnode != header && q == PlaceIn(cmp, v.c, newnode.item) && mode != AD
      requires q < |v.c| && x == v.c[q] && Eq(cmp, x.item, newnode.item)
      ensures InsertOutcome(v, cmp, mode, level, nilEq, newnode, newnode.next, status, calls, v)
    {
      SoundParts(v, cmp, header, maxlevel, curlevel, newnode.item);
      NotInserted(v, cmp, header, maxlevel, curlevel, mode, level, nilEq, newnode);
      hide Sound, Wf, Counted, PlaceIn, Grown, Owned, LinkedAll, Splits, Tallest, Present, RunIs, RunEnd,
           InsertOutcome, Updated;
      if mode == ND {
        NoCalls(v.c, q, RunEnd(cmp, v.c, q, newnode.item), nilEq);
        return DuplicateKey, [];
      }
      calls := UpdateNodeData(x, newnode, mode, nilEq, v, q, RunEnd(cmp, v.c, q, newnode.item));
      return Ok, calls;
    }

    /** The rest of an insertion, once the descent has stopped in front of `x`. */
    method InsertFound(x: Node, newnode: Node, mode: Mode, nilEq: bool, upd: array<Node?>, ghost q: nat)
      returns (status: Status, calls: seq<Node>)
      requires Valid() && Ready() && newnode !in v.c && newnode != header && q == PlaceIn(cmp, v.c, newnode.item)
      requires Wf(v) && 1 <= q <= |v.c| && x == (if q < |v.c| then v.c[q] else header)
      requires Recorded(v, q, upd, curlevel) && upd.Length == MAXLEVELS
      modifies this, v.a, newnode, upd, stat, back, rng, rng.mt
      ensures Valid() && Ready() && (v == old(v) || fresh(newnode.next))
      ensures if v == old(v) then Took(0, 0) && Drew(0) && curlevel == old(curlevel) else Took(PerNode(), 0) && Drew(1)
      ensures InsertOutcome(old(v), cmp, mode, old(NextHeight()), nilEq, newnode, newnode.next, status, calls, v)
    {
      hide Sound, Wf, Counted, Recorded, PlaceIn, Grown, Owned, LinkedAll, Splits, Tallest, Present, InsertOutcome,
        LevelOf,
           Mirrored, Rand.Valid, Rand.Drawn, Draw;
      SoundParts(v, cmp, header, maxlevel, curlevel, newnode.item);
      AtPlace(v, cmp, header, maxlevel, curlevel, q, newnode.item);
      ghost var w, level := v, NextHeight();
      if x != header && IsEq(x, newnode) && mode != AD {
        status, calls := MeetEqual(x, newnode, mode, nilEq, level, q);
        return;
      }
      AddNodeAndUpdateLinks(upd, newnode);
      GrownDiffers(w, q, newnode, newnode.next, v);
      WasInserted(w, cmp, mode, level, nilEq, newnode, newnode.next, v);
      return Ok, [];
    }

    /** The two-pass insertion.  `nilEq` is what the comparator would make of the header. */
    method InsertI(newnode: Node, mode: Mode, nilEq: bool) returns (status: Status, calls: seq<Node>)
      requires Valid() && Ready() && newnode !in v.c
      modifies this, v.a, newnode, stat, back, rng, rng.mt
      ensures Valid() && Ready() && (v == old(v) || fresh(newnode.next))
      ensures if v == old(v) then Took(0, 0) && Drew(0) && curlevel == old(curlevel) else Took(PerNode(), 0) && Drew(1)
      ensures InsertOutcome(old(v), cmp, mode, old(NextHeight()), nilEq, newnode, newnode.next, status, calls, v)
    {
      hide Sound, Wf, Counted, Recorded, PlaceIn, InsertOutcome, LevelOf, Owned, LinkedAll, Splits, Tallest,
           Mirrored, Rand.Valid, Rand.Drawn, Draw;
      SoundParts(v, cmp, header, maxlevel, curlevel, newnode.item);
      ghost var q := PlaceIn(cmp, v.c, newnode.item);
      var x, upd := Trace(newnode, q);
      status, calls := InsertFound(x, newnode, mode, nilEq, upd, q);
    }

    /** Insertion of a new node unless an equal one is there. */
    method InsertND(nnode: Node) returns (status: Status)
      requires Valid() && Ready() && nnode !in v.c
      modifies this, v.a, nnode, stat, back, rng, rng.mt
      ensures Valid() && Ready() && |old(v.c)| > 0
      ensures status == if Present(cmp, ItemsOf(old(v.c)[1..]), nnode.item) then DuplicateKey else Ok
      ensures status == DuplicateKey ==> v == old(v) && Took(0, 0) && Drew(0) && curlevel == old(curlevel)
      ensures status == Ok ==> nnode.next.Length == old(NextHeight()) && Took(PerNode(), 0) && Drew(1)
      ensures status == Ok ==> Grown(old(v), PlaceIn(cmp, old(v.c), nnode.item), nnode, nnode.next, v)
      ensures v == old(v) || fresh(nnode.next)
    {
      hide Sound, Counted, PlaceIn, LevelOf, RunEnd, Updated, Present, Grown, Mirrored, Rand.Valid, Rand.Drawn, Draw;
      SoundBefore(v, cmp, header, maxlevel, curlevel);
      ghost var w := v;
      var calls;
      status, calls := InsertI(nnode, ND, false);
      GrownDiffers(w, PlaceIn(cmp, w.c, nnode.item), nnode, nnode.next, v);
    }

    /** The two-pass insertion of a new node, duplicates allowed. */
    method InsertTwoPass(nnode: Node)
      requires Valid() && Ready() && nnode !in v.c
      modifies this, v.a, nnode, stat, back, rng, rng.mt
      ensures Valid() && Ready() && |old(v.c)| > 0 && fresh(nnode.next) && Took(PerNode(), 0) && Drew(1)
      ensures nnode.next.Length == old(NextHeight())
      ensures Grown(old(v), PlaceIn(cmp, old(v.c), nnode.item), nnode, nnode.next, v)
    {
      hide Sound, Counted, PlaceIn, LevelOf, RunEnd, Updated, Present, Grown, Mirrored, Rand.Valid, Rand.Drawn, Draw;
      SoundBefore(v, cmp, header, maxlevel, curlevel);
      ghost var w := v;
      var status, calls := InsertI(nnode, AD, false);
      GrownDiffers(w, PlaceIn(cmp, w.c, nnode.item), nnode, nnode.next, v);
    }

    // ----- search

    /** The descent that stops on the highest level where it meets an equal node. */
    method SearchDown(probe: Node, top: nat, ghost v: View, ghost q: nat) returns (found: Node?)
      requires Wf(v) && Owned(v) && LinkedAll(v) && |v.c| == |v.h| && v.c[0] == header && 1 <= top <= v.h[0]
      requires Splits(cmp, v.c, q, probe.item) && 1 <= q <= |v.c| && probe != header
      requires RunIs(cmp, v.c, q, RunEnd(cmp, v.c, q, probe.item), probe.item) && NoneAbove(v, cmp, probe.item, top)
      ensures if found == null then NoneAbove(v, cmp, probe.item, 0) else SearchOutcome(v, cmp, probe.item, found)
    {
      hide Wf, LinkedAll, Linked, NextAt, PrevAt, Owned, Splits, NoneAbove, SearchOutcome, RunIs, RunEnd;
      var x, i := header, top;
      ghost var p: nat := 0;
      while i > 0
        invariant 0 <= i <= top && p < q && x == v.c[p] && i <= v.h[p]
        invariant Owned(v) && LinkedAll(v) && NoneAbove(v, cmp, probe.item, i)
      {
        i := i - 1;
        ALevel(v, i);
        x, p := Advance(x, i, probe, v, p, q);
        SearchStep(v, cmp, header, q, probe.item, i, p);
        if x.next[i] != header && IsEq(x.next[i], probe) {
          return x.next[i];
        }
      }
      return null;
    }

    /** Finds a node equal to the probe if there is one. */
    method Search(probe: Node) returns (found: Node?)
      requires Valid() && probe != header
      ensures SearchOutcome(v, cmp, probe.item, found)
    {
      ghost var q := PlaceIn(cmp, v.c, probe.item);
      SoundParts(v, cmp, header, maxlevel, curlevel, probe.item);
      SearchStart(v, cmp, header, maxlevel, curlevel, probe.item);
      hide Sound, Wf, LinkedAll, Owned, Splits, Tallest, PlaceIn, NoneAbove, SearchOutcome, RunIs;
      found := null;
      if nodenum > 0 {
        found := SearchDown(probe, curlevel, v, q);
      } else {
        NothingThere(v, cmp, probe.item);
      }
      if found == null {
        SearchEnd(v, cmp, header, maxlevel, curlevel, probe.item);
      }
    }
  }

  /** Makes a list, unless the number of levels is out of bounds. */
  method Init(maxlev: nat, cmp: Comparator, dst: bool, stat: MStat, double: bool) returns (l: SkipList?, err: Status)
    modifies stat
    ensures if 1 <= maxlev <= 20 then
              && err == Ok && l != null && fresh(l) && l.Valid() && l.Ready() && l.cmp == cmp && l.maxlevel == maxlev
              && l.curlevel == 1 && l.nodenum == 0 && l.tail == l.header
              && l.v == View([l.header], [l.header.next], [maxlev])
              && l.dst == dst && l.stat == stat && (l.back != null <==> double) && (l.back != null ==> fresh(l.back))
              && fresh(l.header) && fresh(l.header.next) && fresh(l.rng) && fresh(l.rng.mt)
              && l.rng.words == SeedState(SEED_VALUE) && l.rng.Drawn() == 0 && SeededWords(l.rng.words, 0x1571)
            else err == Error && l == null
    ensures stat.alloc_count == old(stat.alloc_count) + if l != null then l.PerList() else 0
    ensures stat.freed_count == old(stat.freed_count)
  {
    hide Sound, Rand.Valid, Mirrored, SeedState, SeededWords, Rand.Drawn;
    SeedStateIs(0x1571);
    l, err := null, Error;
    if maxlev > 0 && maxlev <= MAXLEVELS {
      l := new SkipList(maxlev, cmp, dst, stat, double);
      err := Ok;
    }
  }

  /** The list `l` is valid and has the view `u`. */
  ghost predicate Holds(l: SkipList, u: View)
    reads l, u.c, u.a
  {
    l.v == u && l.Valid()
  }
}
