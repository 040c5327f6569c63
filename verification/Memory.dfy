/**
 The memory that a client's lists and iterators hold, over any sequence of calls.
 */
module Memory {
  import opened KeyOrder
  import opened Towers
  import opened Links
  import opened SkipLists
  import opened Doubles
  import opened Blocks
  import opened Bulk
  import opened Runs
  import opened Shapes
  import opened Histories
  import Iterators
  import opened Mt19937

  lemma NodeCount(l: SkipList, u: View)
    requires Holds(l, u)
    ensures |u.c| == l.nodenum + 1
  {
  }

  /** What is handed to the client when a node is destroyed: first its data, if the caller has given
      a function for that, and then the node itself. */
  datatype Cleanup = OfData(n: Node) | OfNode(n: Node)

  ghost function Cleanups(c: seq<Node>, data: bool): (r: seq<Cleanup>) {
    if c == [] then [] else (if data then [OfData(c[0]), OfNode(c[0])] else [OfNode(c[0])]) + Cleanups(c[1..], data)
  }

  lemma {:induction false} CleanupsMore(c: seq<Node>, x: Node, data: bool)
    ensures Cleanups(c + [x], data) == Cleanups(c, data) + if data then [OfData(x), OfNode(x)] else [OfNode(x)]
  {
    if c == [] {
      assert [] + [x] == [x] && [x][1..] == [];
    } else {
      assert (c + [x])[1..] == c[1..] + [x];
      CleanupsMore(c[1..], x, data);
    }
  }

  /** Each node in its turn, its data before it. */
  lemma {:induction false} CleanupsAt(c: seq<Node>, data: bool, k: nat)
    requires k < |c|
    ensures |Cleanups(c, data)| == if data then 2 * |c| else |c|
    ensures if data then Cleanups(c, data)[2 * k] == OfData(c[k]) && Cleanups(c, data)[2 * k + 1] == OfNode(c[k])
            else Cleanups(c, data)[k] == OfNode(c[k])
  {
    if |c| > 1 {
      CleanupsAt(c[1..], data, if k > 0 then k - 1 else 0);
    }
  }

  /** What has been handed over when `k` nodes are gone. */
  ghost predicate HandedOver(c: seq<Node>, k: nat, data: bool, cleanups: seq<Cleanup>) {
    k < |c| && cleanups == Cleanups(c[1..k + 1], data)
  }

  lemma HandedNone(c: seq<Node>, data: bool)
    requires |c| > 0
    ensures HandedOver(c, 0, data, [])
  {
    assert c[1..1] == [];
  }

  lemma HandedMore(c: seq<Node>, k: nat, data: bool, cleanups: seq<Cleanup>)
    requires k + 1 < |c| && HandedOver(c, k, data, cleanups)
    ensures HandedOver(c, k + 1, data,
                       cleanups + if data then [OfData(c[k + 1]), OfNode(c[k + 1])] else [OfNode(c[k + 1])])
  {
    assert c[1..k + 2] == c[1..k + 1] + [c[k + 1]];
    CleanupsMore(c[1..k + 1], c[k + 1], data);
  }

  lemma HandedAll(c: seq<Node>, data: bool, cleanups: seq<Cleanup>)
    requires |c| > 0 && HandedOver(c, |c| - 1, data, cleanups)
    ensures cleanups == Cleanups(c[1..], data)
  {
    assert c[1..|c|] == c[1..];
  }

  /** Destroys a node with its data, in a list that has a node destroyer. */
  method DestroyWithData(l: SkipList, x: Node, data: bool) returns (cleanups: seq<Cleanup>)
    requires l.dst
    modifies l.stat, l.back
    ensures cleanups == if data then [OfData(x), OfNode(x)] else [OfNode(x)]
    ensures l.Took(0, l.PerNode())
  {
    cleanups := if data then [OfData(x)] else [];
    var gone := l.DestroyNode(x);
    cleanups := cleanups + [OfNode(gone[0])];
  }

  /** Destroys a list, if it has a node destroyer: the arrays of each node along level 0, then those
      of the header, the header, the generator and the list.  The next node is read before the
      present one goes. */
  method Destroy(l: SkipList, data: bool, ghost u: View) returns (done: bool, cleanups: seq<Cleanup>)
    requires Holds(l, u)
    modifies l.stat, l.back
    ensures |u.c| > 0 && done == l.dst && cleanups == if done then Cleanups(u.c[1..], data) else []
    ensures l.Took(0, if done then l.PerList() + l.BlocksFor(l.nodenum) else 0)
    ensures !done && l.back != null ==> l.back.prev == old(l.back.prev)
  {
    hide Holds, Cleanups, HandedOver;
    NodeCount(l, u);
    cleanups := [];
    if !l.dst {
      return false, [];
    }
    Iterators.Ground(l, u, 0);
    Iterators.Standing(l, u, 0);
    ghost var k: nat := 0;
    HandedNone(u.c, data);
    var node := l.header.next[0];
    while node != l.header
      invariant Holds(l, u) && k < |u.c| && HandedOver(u.c, k, data, cleanups)
      invariant node == if k + 1 < |u.c| then u.c[k + 1] else l.header
      invariant k + 1 < |u.c| ==> node != l.header
      invariant l.Took(0, l.BlocksFor(k))
      decreases |u.c| - k
    {
      Iterators.Ground(l, u, k + 1);
      var save := node.next[0];
      var more := DestroyWithData(l, node, data);
      HandedMore(u.c, k, data, cleanups);
      cleanups := cleanups + more;
      node := save;
      k := k + 1;
    }
    HandedAll(u.c, data, cleanups);
    DestroyHeader(l);
    done := true;
  }

  /** The header's arrays, the header, the generator and the list itself. */
  method DestroyHeader(l: SkipList)
    modifies l.stat
    ensures l.Took(0, l.PerList())
  {
    if l.back != null {
      l.stat.Free();
    }
    l.stat.Free();
    l.stat.Free();
    l.stat.Free();
    l.stat.Free();
  }

  // ----- the lists of a client

  function Sum(s: seq<nat>): nat {
    if s == [] then 0 else s[0] + Sum(s[1..])
  }

  lemma {:induction false} SumChange(s: seq<nat>, i: nat, x: nat)
    requires i < |s|
    ensures Sum(s[i := x]) + s[i] == Sum(s) + x
  {
    if i == 0 {
      assert s[0 := x][1..] == s[1..];
    } else {
      assert s[i := x][1..] == s[1..][i - 1 := x];
      SumChange(s[1..], i - 1, x);
    }
  }

  lemma {:induction false} SumAdd(s: seq<nat>, x: nat)
    ensures Sum(s + [x]) == Sum(s) + x
  {
    if s == [] {
      assert [] + [x] == [x] && [x][1..] == [];
    } else {
      assert (s + [x])[1..] == s[1..] + [x];
      SumAdd(s[1..], x);
    }
  }

  lemma {:induction false} SumZero(s: seq<nat>)
    ensures Sum(s) == 0 <==> forall i :: 0 <= i < |s| ==> s[i] == 0
  {
    if s != [] {
      SumZero(s[1..]);
      assert forall i :: 0 < i < |s| ==> s[i] == s[1..][i - 1];
      assert forall i :: 0 <= i < |s[1..]| ==> s[1..][i] == s[i + 1];
    }
  }

  /** The blocks that a list holds. */
  ghost function Held(l: SkipList?): nat
    reads l
  {
    if l == null then 0 else l.PerList() + l.BlocksFor(l.nodenum)
  }

  /** The objects that a list is made of. */
  ghost function Parts(l: SkipList?): set<object>
    reads l
  {
    if l == null then {}
    else {l, l.rng, l.rng.mt} + (if l.back != null then {l.back} else {}) + (set c | c in l.v.c) + (set a | a in l.v.a)
  }

  /** A list of this client: well-formed, counted by `stat`, of the same build as the others. */
  ghost predicate Good(l: SkipList, stat: MStat, double: bool)
    reads l, Parts(l)
  {
    l.Valid() && l.Ready() && l.stat == stat && (l.back != null <==> double)
  }

  /** All that an operation on the list may change is in `repr`. */
  ghost predicate Within(l: SkipList, repr: set<object>)
    reads l
  {
    && l in repr && l.stat in repr && l.rng in repr && l.rng.mt in repr && (l.back != null ==> l.back in repr)
    && forall j :: 0 <= j < |l.v.a| ==> l.v.a[j] in repr
  }

  ghost predicate AllKept(lists: seq<SkipList?>, stat: MStat, double: bool, repr: set<object>)
    reads set i | 0 <= i < |lists| :: lists[i]
    reads set i, o | 0 <= i < |lists| && o in Parts(lists[i]) :: o
  {
    && stat in repr
    && (forall i :: 0 <= i < |lists| && lists[i] != null ==> Good(lists[i], stat, double) && Within(lists[i], repr))
    && (forall i, j :: 0 <= i < |lists| && 0 <= j < |lists| && i != j && lists[i] != null && lists[j] != null
          ==> Disjoint(lists[i], lists[j]))
  }

  /** A list, as its client sees it. */
  datatype Sheet = Sheet(cmp: Comparator, dst: bool, items: seq<Item>)

  ghost function SheetOf(l: SkipList): Sheet
    reads l
  {
    Sheet(l.cmp, l.dst, if |l.v.c| > 0 then ItemsOf(l.v.c[1..]) else [])
  }

  ghost function Seen(l: SkipList?): Option<Sheet>
    reads l
  {
    if l == null then None else Some(SheetOf(l))
  }

  function Used(t: Sheet, op: Op): Sheet {
    t.(items := After(t.cmp, t.items, op))
  }

  /** What one operation does to its list and to the count. */
  method UseGood(l: SkipList, op: Op, stat: MStat, ghost double: bool, ghost repr: set<object>)
    returns (reply: Reply, ghost repr': set<object>)
    requires Good(l, stat, double) && Within(l, repr)
    modifies l, l.v.a, l.stat, l.back, l.rng, l.rng.mt
    ensures Good(l, stat, double) && Within(l, repr') && OldOrNew(l) && repr <= repr' && fresh(repr' - repr)
    ensures Obeys(l.cmp, l.maxlevel, l.rng.words, old(l.v), old(l.rng.Drawn()), op, reply, l.v, l.rng.Drawn())
    ensures stat.alloc_count + old(stat.freed_count) + old(Held(l))
      == old(stat.alloc_count) + stat.freed_count + Held(l)
  {
    hide SkipList.Valid, SkipList.Ready, Obeys, Rand.Drawn;
    ghost var w, d := l.v, l.rng.Drawn();
    Histories.Sizes(l);
    reply := Perform(l, op);
    Histories.Sizes(l);
    ObeysCounts(l.cmp, l.maxlevel, l.rng.words, w, d, op, reply, l.v, l.rng.Drawn());
    repr' := repr + (set a | a in l.v.a);
  }

  /** One operation on one of the lists leaves all lists well-formed and the others as they are. */
  method UseOne(lists: seq<SkipList?>, i: nat, op: Op, stat: MStat, ghost double: bool, ghost repr: set<object>)
    returns (reply: Reply, ghost repr': set<object>)
    requires AllKept(lists, stat, double, repr) && i < |lists| && lists[i] != null
    modifies repr
    ensures AllKept(lists, stat, double, repr') && repr <= repr' && fresh(repr' - repr)
    ensures forall k :: 0 <= k < |lists| && k != i && lists[k] != null ==>
              lists[k].v == old(lists[k].v) && Held(lists[k]) == old(Held(lists[k]))
    ensures Obeys(lists[i].cmp, lists[i].maxlevel, lists[i].rng.words, old(lists[i].v), old(lists[i].rng.Drawn()),
                  op, reply, lists[i].v, lists[i].rng.Drawn())
    ensures stat.alloc_count + old(stat.freed_count) + old(Held(lists[i]))
         == old(stat.alloc_count) + stat.freed_count + Held(lists[i])
  {
    hide SkipList.Valid, SkipList.Ready, Obeys, Rand.Drawn, Held;
    var l := lists[i];
    assert Good(l, stat, double) && Within(l, repr);
    reply, repr' := UseGood(l, op, stat, double, repr);
    forall k | 0 <= k < |lists| && k != i && lists[k] != null
      ensures lists[k].v == old(lists[k].v) && Held(lists[k]) == old(Held(lists[k]))
      ensures Good(lists[k], stat, double) && Within(lists[k], repr') && Disjoint(l, lists[k]) && Disjoint(lists[k], l)
    {
      assert old(Disjoint(l, lists[k])) && old(Good(lists[k], stat, double)) && old(Within(lists[k], repr));
    }
  }

  method NewGood(maxlev: nat, cmp: Comparator, dst: bool, stat: MStat, double: bool, ghost repr: set<object>)
    returns (l: SkipList?, ghost repr': set<object>)
    requires stat in repr
    modifies stat
    ensures l != null <==> 1 <= maxlev <= MAXLEVELS
    ensures repr <= repr' && fresh(repr' - repr) && stat.freed_count == old(stat.freed_count)
    ensures l == null ==> stat.alloc_count == old(stat.alloc_count)
    ensures l != null ==> Good(l, stat, double) && Within(l, repr')
    ensures l != null ==> stat.alloc_count == old(stat.alloc_count) + Held(l)
    ensures l != null ==> fresh(l) && fresh(l.rng) && fresh(l.rng.mt) && (l.back != null ==> fresh(l.back))
    ensures l != null ==> forall j :: 0 <= j < |l.v.a| ==> fresh(l.v.a[j])
    ensures l != null ==> SheetOf(l) == Sheet(cmp, dst, [])
  {
    hide SkipList.Valid, SkipList.Ready, Rand.Drawn, SeedState, SeededWords;
    var err;
    l, err := Init(maxlev, cmp, dst, stat, double);
    repr' := repr;
    if l != null {
      repr' := repr + {l, l.rng, l.rng.mt} + (set a | a in l.v.a) + if l.back != null then {l.back} else {};
    }
  }

  /** One more list, unless the number of levels is out of bounds. */
  method NewOne(lists: seq<SkipList?>, maxlev: nat, cmp: Comparator, dst: bool, stat: MStat, double: bool,
          ghost repr: set<object>)
    returns (more: seq<SkipList?>, ghost repr': set<object>)
    requires AllKept(lists, stat, double, repr)
    modifies stat
    ensures AllKept(more, stat, double, repr') && repr <= repr' && fresh(repr' - repr)
    ensures forall k :: 0 <= k < |lists| && lists[k] != null ==>
              lists[k].v == old(lists[k].v) && Held(lists[k]) == old(Held(lists[k]))
    ensures if 1 <= maxlev <= MAXLEVELS
            then |more| == |lists| + 1 && more[..|lists|] == lists && more[|lists|] != null
              && stat.alloc_count == old(stat.alloc_count) + Held(more[|lists|])
              && SheetOf(more[|lists|]) == Sheet(cmp, dst, [])
            else more == lists && stat.alloc_count == old(stat.alloc_count)
    ensures stat.freed_count == old(stat.freed_count)
  {
    hide SkipList.Valid, SkipList.Ready, Held;
    var l;
    l, repr' := NewGood(maxlev, cmp, dst, stat, double, repr);
    more := if l == null then lists else lists + [l];
    forall k | 0 <= k < |lists| && lists[k] != null
      ensures lists[k].v == old(lists[k].v) && Held(lists[k]) == old(Held(lists[k]))
      ensures Good(lists[k], stat, double) && Within(lists[k], repr')
      ensures l != null ==> Disjoint(l, lists[k]) && Disjoint(lists[k], l)
    {
      assert old(Good(lists[k], stat, double)) && old(Within(lists[k], repr));
    }
  }

  lemma GoodHolds(l: SkipList, stat: MStat, double: bool)
    requires Good(l, stat, double)
    ensures Holds(l, l.v) && |l.v.c| > 0
  {
  }

  // ----- whole lists into a list

  /** A copy of a list, a join with a list, allowing equal items or not, and the intersection of two. */
  datatype Whole = CopyOf(i: nat) | JoinOf(i: nat, unique: bool) | MeetOf(i: nat, k: nat)

  /** The other list that the operation takes; the same one again if there is none. */
  function Second(op: Whole): nat {
    if op.MeetOf? then op.k else op.i
  }

  /** What the operation makes of a list, from one or two others. */
  function Filled(op: Whole, t: Sheet, s: Sheet, s2: Sheet): Sheet {
    match op
    case CopyOf(_) => t.(items := InsertAll(t.cmp, t.items, s.items))
    case JoinOf(_, unique) =>
      t.(items := if unique then InsertAllAbsent(t.cmp, t.items, s.items) else InsertAll(t.cmp, t.items, s.items))
    case MeetOf(_, _) => t.(items := InsertAll(t.cmp, t.items, Merge(s.cmp, s.items, s2.items)))
  }

  /** Whether it calls a null function, because a copy is refused and there is no node destroyer. */
  ghost predicate Breaks(op: Whole, t: Sheet, s: Sheet) {
    op.JoinOf? && op.unique && !t.dst && !AllNew(t.cmp, t.items, s.items)
  }

  /** What it does to its target; the sources stay as they are. */
  method PerformWhole(op: Whole, s: SkipList, s2: SkipList, l: SkipList) returns (nullCall: bool)
    requires s.Valid() && s2.Valid() && l.Valid() && l.Ready() && Disjoint(s, l) && Disjoint(s2, l)
    modifies l, l.v.a, l.stat, l.back, l.rng, l.rng.mt
    ensures l.Valid() && l.Ready() && l.Grew() && OldOrNew(l) && s.v == old(s.v) && s2.v == old(s2.v)
    ensures nullCall <==> Breaks(op, old(SheetOf(l)), SheetOf(s))
    ensures !nullCall ==> SheetOf(l) == Filled(op, old(SheetOf(l)), SheetOf(s), SheetOf(s2))
  {
    hide SkipList.Valid, SkipList.Ready, Rand.Drawn, InsertAll, InsertAllAbsent, Merge, Refused, AllNew, Subseq,
      Sorted, Tallest;
    Histories.Sizes(s);
    Histories.Sizes(s2);
    Histories.Sizes(l);
    nullCall := false;
    match op {
      case CopyOf(_) => Copy(s, l);
      case MeetOf(_, _) => Intersect(s, s2, l);
      case JoinOf(_, unique) =>
        var discarded;
        ghost var k;
        discarded, nullCall, k := Join(l, s, if unique then ND else AD);
        assert k == |s.Items()| ==> s.Items()[..k] == s.Items();
    }
    Histories.Sizes(l);
  }

  /** The same, and what it does to the count. */
  method WholeGood(op: Whole, s: SkipList, s2: SkipList, l: SkipList, stat: MStat, ghost double: bool,
          ghost repr: set<object>)
    returns (nullCall: bool, ghost repr': set<object>)
    requires Good(s, stat, double) && Good(s2, stat, double) && Good(l, stat, double) && Within(l, repr)
    requires Disjoint(s, l) && Disjoint(s2, l)
    modifies l, l.v.a, l.stat, l.back, l.rng, l.rng.mt
    ensures Good(l, stat, double) && Within(l, repr') && OldOrNew(l) && repr <= repr' && fresh(repr' - repr)
    ensures s.v == old(s.v) && s2.v == old(s2.v)
    ensures nullCall <==> Breaks(op, old(SheetOf(l)), SheetOf(s))
    ensures !nullCall ==> SheetOf(l) == Filled(op, old(SheetOf(l)), SheetOf(s), SheetOf(s2))
    ensures stat.alloc_count + old(stat.freed_count) + old(Held(l))
      == old(stat.alloc_count) + stat.freed_count + Held(l)
  {
    hide SkipList.Valid, SkipList.Ready, Rand.Drawn, Filled, Breaks, Sorted, Tallest;
    Histories.Sizes(l);
    nullCall := PerformWhole(op, s, s2, l);
    Histories.Sizes(l);
    repr' := repr + (set a | a in l.v.a);
  }

  /** One such operation on one of the lists leaves all lists well-formed and the others as they are. */
  method WholeOne(lists: seq<SkipList?>, j: nat, op: Whole, stat: MStat, ghost double: bool, ghost repr: set<object>)
    returns (nullCall: bool, ghost repr': set<object>)
    requires AllKept(lists, stat, double, repr) && j < |lists| && lists[j] != null
    requires op.i < |lists| && lists[op.i] != null && Second(op) < |lists| && lists[Second(op)] != null
    requires op.i != j && Second(op) != j
    modifies repr
    ensures AllKept(lists, stat, double, repr') && repr <= repr' && fresh(repr' - repr)
    ensures forall k :: 0 <= k < |lists| && k != j && lists[k] != null ==>
              lists[k].v == old(lists[k].v) && Held(lists[k]) == old(Held(lists[k]))
    ensures nullCall <==> Breaks(op, old(SheetOf(lists[j])), old(SheetOf(lists[op.i])))
    ensures !nullCall ==> SheetOf(lists[j]) == Filled(op, old(SheetOf(lists[j])), old(SheetOf(lists[op.i])),
                                                      old(SheetOf(lists[Second(op)])))
    ensures stat.alloc_count + old(stat.freed_count) + old(Held(lists[j]))
         == old(stat.alloc_count) + stat.freed_count + Held(lists[j])
  {
    hide SkipList.Valid, SkipList.Ready, Held, Filled, Breaks;
    var l := lists[j];
    assert Good(l, stat, double) && Within(l, repr);
    nullCall, repr' := WholeGood(op, lists[op.i], lists[Second(op)], l, stat, double, repr);
    forall k | 0 <= k < |lists| && k != j && lists[k] != null
      ensures lists[k].v == old(lists[k].v) && Held(lists[k]) == old(Held(lists[k]))
      ensures Good(lists[k], stat, double) && Within(lists[k], repr') && Disjoint(l, lists[k]) && Disjoint(lists[k], l)
    {
      assert old(Disjoint(l, lists[k])) && old(Good(lists[k], stat, double)) && old(Within(lists[k], repr));
    }
  }

  /** One list fewer, if it has a node destroyer. */
  method DropOne(lists: seq<SkipList?>, i: nat, data: bool, stat: MStat, ghost double: bool, ghost repr: set<object>)
    returns (fewer: seq<SkipList?>, cleanups: seq<Cleanup>)
    requires AllKept(lists, stat, double, repr) && i < |lists| && lists[i] != null
    modifies repr
    ensures AllKept(fewer, stat, double, repr)
    ensures forall k :: 0 <= k < |lists| && lists[k] != null ==>
              lists[k].v == old(lists[k].v) && Held(lists[k]) == old(Held(lists[k]))
    ensures |lists[i].v.c| > 0
    ensures if lists[i].dst then fewer == lists[i := null] && cleanups == Cleanups(lists[i].v.c[1..], data)
            else fewer == lists && cleanups == []
    ensures lists[i].Took(0, if lists[i].dst then Held(lists[i]) else 0)
  {
    hide SkipList.Valid, Cleanups, Distinct, Backed, Rand.Valid, Holds;
    var l := lists[i];
    assert Good(l, stat, double) && Within(l, repr);
    GoodHolds(l, stat, double);
    var done;
    done, cleanups := Destroy(l, data, l.v);
    fewer := if done then lists[i := null] else lists;
    forall k | 0 <= k < |lists| && k != i && lists[k] != null
      ensures lists[k].v == old(lists[k].v) && Held(lists[k]) == old(Held(lists[k]))
      ensures Good(lists[k], stat, double) && Within(lists[k], repr) && Disjoint(l, lists[k]) && Disjoint(lists[k], l)
    {
      assert old(Disjoint(l, lists[k])) && old(Good(lists[k], stat, double)) && old(Within(lists[k], repr));
    }
  }

  /** `held` says how many blocks each list holds, none if it has been destroyed; with `rest` more
      they are the blocks that have been allocated and not freed. */
  ghost predicate Account(lists: seq<SkipList?>, held: seq<nat>, stat: MStat, rest: nat)
    reads stat, set i | 0 <= i < |lists| :: lists[i]
  {
    && |held| == |lists|
    && (forall i :: 0 <= i < |lists| ==> held[i] == Held(lists[i]))
    && stat.alloc_count == stat.freed_count + Sum(held) + rest
  }

  lemma ReadyMirrors(l: SkipList)
    requires l.Ready()
    ensures Mirrored(l.back, l.v)
  {
  }

  lemma OneOf(lists: seq<SkipList?>, i: nat, stat: MStat, double: bool, repr: set<object>)
    requires AllKept(lists, stat, double, repr) && i < |lists| && lists[i] != null
    ensures Holds(lists[i], lists[i].v) && lists[i].stat == stat && stat in repr
      && |lists[i].v.c| == lists[i].nodenum + 1
  {
    hide SkipList.Ready, Disjoint, Within, Parts;
    assert Good(lists[i], stat, double);
    Histories.Sizes(lists[i]);
  }

  lemma ObeysCounts(cmp: Comparator, max: nat, words: seq<bv32>, w: View, d: nat, op: Op, reply: Reply, v: View,
          d': nat)
    requires Obeys(cmp, max, words, w, d, op, reply, v, d')
    ensures |w.c| > 0 && |v.c| == |w.c| + Change(op, reply)
  {
    var s, t := ItemsOf(w.c[1..]), ItemsOf(v.c[1..]);
    assert |s| == |w.c| - 1 && |t| == |v.c| - 1;
    CountChanges(cmp, s, op);
    ItemsAfter(cmp, max, words, ImageOf(w, d), op);
    hide ItemsOf, AfterImage, After, Answer, Change;
  }

  /** What an operation does to the items. */
  lemma ObeysItems(cmp: Comparator, max: nat, words: seq<bv32>, w: View, d: nat, op: Op, reply: Reply, v: View,
          d': nat)
    requires Obeys(cmp, max, words, w, d, op, reply, v, d')
    ensures |w.c| > 0 && |v.c| > 0 && ItemsOf(v.c[1..]) == After(cmp, ItemsOf(w.c[1..]), op)
    ensures reply == Answer(cmp, ItemsOf(w.c[1..]), op)
  {
    ItemsAfter(cmp, max, words, ImageOf(w, d), op);
    ImageItems(w, d);
    ImageItems(v, d');
    hide AfterImage, After, Answer, ImageOf;
  }

  /** The same with the account. */
  method UseCounted(lists: seq<SkipList?>, i: nat, op: Op, stat: MStat, ghost double: bool, ghost repr: set<object>,
          ghost held: seq<nat>, ghost rest: nat)
    returns (reply: Reply, ghost repr': set<object>, ghost held': seq<nat>)
    requires AllKept(lists, stat, double, repr) && i < |lists| && lists[i] != null && Account(lists, held, stat, rest)
    modifies repr
    ensures AllKept(lists, stat, double, repr') && repr <= repr' && fresh(repr' - repr)
      && Account(lists, held', stat, rest)
    ensures forall k :: 0 <= k < |lists| && k != i ==> Seen(lists[k]) == old(Seen(lists[k]))
    ensures SheetOf(lists[i]) == Used(old(SheetOf(lists[i])), op)
    ensures var t := old(SheetOf(lists[i])); reply == Answer(t.cmp, t.items, op)
  {
    hide AllKept, Sum, Obeys, Rand.Drawn, Held, After, Answer, ItemsOf;
    ghost var l, w, d := lists[i], lists[i].v, lists[i].rng.Drawn();
    reply, repr' := UseOne(lists, i, op, stat, double, repr);
    ObeysItems(l.cmp, l.maxlevel, l.rng.words, w, d, op, reply, l.v, l.rng.Drawn());
    SumChange(held, i, Held(lists[i]));
    held' := held[i := Held(lists[i])];
  }

  /** The same with the account. */
  method WholeCounted(lists: seq<SkipList?>, j: nat, op: Whole, stat: MStat, ghost double: bool,
          ghost repr: set<object>, ghost held: seq<nat>, ghost rest: nat)
    returns (nullCall: bool, ghost repr': set<object>, ghost held': seq<nat>)
    requires AllKept(lists, stat, double, repr) && j < |lists| && lists[j] != null && Account(lists, held, stat, rest)
    requires op.i < |lists| && lists[op.i] != null && Second(op) < |lists| && lists[Second(op)] != null
    requires op.i != j && Second(op) != j
    modifies repr
    ensures AllKept(lists, stat, double, repr') && repr <= repr' && fresh(repr' - repr)
      && Account(lists, held', stat, rest)
    ensures forall k :: 0 <= k < |lists| && k != j ==> Seen(lists[k]) == old(Seen(lists[k]))
    ensures nullCall <==> Breaks(op, old(SheetOf(lists[j])), old(SheetOf(lists[op.i])))
    ensures !nullCall ==> SheetOf(lists[j]) == Filled(op, old(SheetOf(lists[j])), old(SheetOf(lists[op.i])),
                                                      old(SheetOf(lists[Second(op)])))
  {
    hide AllKept, Sum, Held, Filled, Breaks, ItemsOf;
    nullCall, repr' := WholeOne(lists, j, op, stat, double, repr);
    SumChange(held, j, Held(lists[j]));
    held' := held[j := Held(lists[j])];
  }

  /** One more list, with the account. */
  method NewCounted(lists: seq<SkipList?>, maxlev: nat, cmp: Comparator, dst: bool, stat: MStat, double: bool,
          ghost repr: set<object>, ghost held: seq<nat>, ghost rest: nat)
    returns (more: seq<SkipList?>, ghost repr': set<object>, ghost held': seq<nat>)
    requires AllKept(lists, stat, double, repr) && Account(lists, held, stat, rest)
    modifies stat
    ensures AllKept(more, stat, double, repr') && repr <= repr' && fresh(repr' - repr)
      && Account(more, held', stat, rest)
    ensures if 1 <= maxlev <= MAXLEVELS
            then |more| == |lists| + 1 && more[..|lists|] == lists && more[|lists|] != null
              && SheetOf(more[|lists|]) == Sheet(cmp, dst, [])
            else more == lists
  {
    hide AllKept, Sum, Held;
    NoneHeld();
    more, repr' := NewOne(lists, maxlev, cmp, dst, stat, double, repr);
    held' := held;
    if 1 <= maxlev <= MAXLEVELS {
      SumAdd(held, Held(more[|lists|]));
      held' := held + [Held(more[|lists|])];
      assert forall k :: 0 <= k < |lists| ==> more[k] == more[..|lists|][k];
    }
  }

  lemma NoneHeld()
    ensures Held(null) == 0
  {
  }

  /** One list fewer, with the account. */
  method DropCounted(lists: seq<SkipList?>, i: nat, data: bool, stat: MStat, ghost double: bool,
          ghost repr: set<object>, ghost held: seq<nat>, ghost rest: nat)
    returns (fewer: seq<SkipList?>, cleanups: seq<Cleanup>, ghost held': seq<nat>)
    requires AllKept(lists, stat, double, repr) && i < |lists| && lists[i] != null && Account(lists, held, stat, rest)
    modifies repr
    ensures AllKept(fewer, stat, double, repr) && Account(fewer, held', stat, rest)
    ensures forall k :: 0 <= k < |lists| ==> Seen(lists[k]) == old(Seen(lists[k]))
    ensures |old(lists[i].v.c)| > 0
    ensures if lists[i].dst then fewer == lists[i := null] && cleanups == Cleanups(old(lists[i].v.c)[1..], data)
            else fewer == lists && cleanups == []
  {
    hide AllKept, Sum, Held, Cleanups, ItemsOf;
    NoneHeld();
    OneOf(lists, i, stat, double, repr);
    fewer, cleanups := DropOne(lists, i, data, stat, double, repr);
    held' := held;
    if lists[i].dst {
      SumChange(held, i, 0);
      held' := held[i := 0];
    }
  }

  // ----- iterators

  /** A new iterator, over a list from its start or over all nodes equal to a probe, takes one
      block. */
  method IterateCounted(lists: seq<SkipList?>, i: nat, k: Option<Item>, stat: MStat, ghost double: bool,
          ghost repr: set<object>,
          ghost held: seq<nat>, ghost rest: nat)
    returns (it: Iterators.Iterator)
    requires AllKept(lists, stat, double, repr) && i < |lists| && lists[i] != null && Account(lists, held, stat, rest)
    modifies stat
    ensures AllKept(lists, stat, double, repr) && Account(lists, held, stat, rest + 1) && it.list.stat == stat
  {
    hide AllKept, Sum, Held;
    if k.Some? {
      var probe := Probe(lists, k.value, stat, double, repr);
      it := IterateEqual(lists, i, probe, stat, double, repr);
    } else {
      it := IterateFrom(lists, i, stat, double, repr);
    }
  }

  method Probe(lists: seq<SkipList?>, k: Item, ghost stat: MStat, ghost double: bool, ghost repr: set<object>)
    returns (probe: Node)
    requires AllKept(lists, stat, double, repr)
    ensures AllKept(lists, stat, double, repr) && fresh(probe) && probe.item == k
  {
    hide SkipList.Valid, SkipList.Ready;
    probe := new Node(k);
    forall k | 0 <= k < |lists| && lists[k] != null
      ensures lists[k].v == old(lists[k].v) && Good(lists[k], stat, double)
    {
      assert old(Good(lists[k], stat, double));
    }
  }

  method IterateEqual(lists: seq<SkipList?>, i: nat, probe: Node, stat: MStat, ghost double: bool,
          ghost repr: set<object>)
    returns (it: Iterators.Iterator)
    requires AllKept(lists, stat, double, repr) && i < |lists| && lists[i] != null && probe != lists[i].header
    modifies stat
    ensures AllKept(lists, stat, double, repr) && it.list.stat == stat
    ensures stat.alloc_count == old(stat.alloc_count) + 1 && stat.freed_count == old(stat.freed_count)
  {
    hide SkipList.Valid, SkipList.Ready, Holds, PlaceIn, RunEnd, RunIs;
    OneOf(lists, i, stat, double, repr);
    var status;
    status, it := Iterators.SearchALL(lists[i], probe, lists[i].v);
    forall k | 0 <= k < |lists| && lists[k] != null
      ensures lists[k].v == old(lists[k].v) && Good(lists[k], stat, double)
    {
      assert old(Good(lists[k], stat, double));
    }
  }

  method IterateFrom(lists: seq<SkipList?>, i: nat, stat: MStat, ghost double: bool, ghost repr: set<object>)
    returns (it: Iterators.Iterator)
    requires AllKept(lists, stat, double, repr) && i < |lists| && lists[i] != null
    modifies stat
    ensures AllKept(lists, stat, double, repr) && it.list.stat == stat
    ensures stat.alloc_count == old(stat.alloc_count) + 1 && stat.freed_count == old(stat.freed_count)
  {
    hide SkipList.Valid, SkipList.Ready, Holds, Mirrored;
    OneOf(lists, i, stat, double, repr);
    ReadyMirrors(lists[i]);
    it := Iterators.SetIterator(lists[i], null, lists[i].v, 0);
    forall k | 0 <= k < |lists| && lists[k] != null
      ensures lists[k].v == old(lists[k].v) && Good(lists[k], stat, double)
    {
      assert old(Good(lists[k], stat, double));
    }
  }

  method LoseIterator(lists: seq<SkipList?>, it: Iterators.Iterator, stat: MStat, ghost double: bool,
          ghost repr: set<object>)
    requires AllKept(lists, stat, double, repr) && it.list.stat == stat
    modifies stat
    ensures AllKept(lists, stat, double, repr)
    ensures stat.alloc_count == old(stat.alloc_count) && stat.freed_count == old(stat.freed_count) + 1
  {
    hide SkipList.Valid, SkipList.Ready;
    Iterators.DestroyIterator(it);
    forall k | 0 <= k < |lists| && lists[k] != null
      ensures lists[k].v == old(lists[k].v) && Good(lists[k], stat, double)
    {
      assert old(Good(lists[k], stat, double));
    }
  }

  method LoseCounted(lists: seq<SkipList?>, it: Iterators.Iterator, stat: MStat, ghost double: bool,
          ghost repr: set<object>,
          ghost held: seq<nat>, ghost rest: nat)
    requires AllKept(lists, stat, double, repr) && it.list.stat == stat && Account(lists, held, stat, rest) && rest > 0
    modifies stat
    ensures AllKept(lists, stat, double, repr) && Account(lists, held, stat, rest - 1)
  {
    hide AllKept, Sum, Held;
    LoseIterator(lists, it, stat, double, repr);
  }
}
