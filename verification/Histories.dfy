/**
 Whole runs: a skip list in memory answers any sequence of calls as a sorted sequence would, and
 its shape is a function of the calls alone.
 */
module Histories {
  import opened KeyOrder
  import opened Towers
  import opened Levels
  import opened Links
  import opened SkipLists
  import opened Bulk
  import opened Runs
  import opened Blocks
  import opened Mt19937
  import opened Shapes
  import opened Doubles

  /** What a client may ask of a list.  An insertion may update equal nodes instead, the first one or
      all (`nilEq` is what the comparator makes of the header).  A deletion may ask the client to
      destroy the node's data first, which the client may refuse, unless it is forced. */
  datatype Op =
    | InsertAD(x: Item)
    | InsertND(x: Item)
    | InsertUPD(x: Item, all: bool, nilEq: bool)
    | Delete(x: Item, ask: Option<Item -> bool>, force: bool)
    | Search(x: Item)

  /** Whether the deletion of an item equal to `k`, if there is one, is refused. */
  predicate Refuses(cmp: Comparator, s: seq<Item>, k: Item, ask: Option<Item -> bool>, force: bool) {
    var r := LowerBound(cmp, s, k);
    r < |s| && ask.Some? && !ask.value(s[r]) && !force
  }

  /** The status, and how many equal nodes have been updated, from the first one on. */
  datatype Reply = Reply(status: Status, updated: nat)

  /** How many of the items equal to `k` an update updates. */
  function Updates(cmp: Comparator, s: seq<Item>, k: Item, all: bool, nilEq: bool): (n: nat) {
    var rest := s[LowerBound(cmp, s, k)..];
    var after := |DropRun(cmp, rest, k)|;
    if |rest| == after then 0 else if all then UpdatedCount(|rest| - after, after, nilEq) else 1
  }

  /** What becomes of the sequence, and what the answer is. */
  function After(cmp: Comparator, s: seq<Item>, op: Op): (t: seq<Item>) {
    match op
    case InsertAD(x) => Insert(cmp, s, x)
    case InsertND(x) => InsertIfAbsent(cmp, s, x)
    case InsertUPD(x, all, nilEq) => InsertIfAbsent(cmp, s, x)
    case Delete(x, ask, force) => if Refuses(cmp, s, x, ask, force) then s else KeyOrder.Delete(cmp, s, x)
    case Search(x) => s
  }

  function Answer(cmp: Comparator, s: seq<Item>, op: Op): (r: Reply) {
    match op
    case InsertAD(x) => Reply(Ok, 0)
    case InsertND(x) => Reply(if Present(cmp, s, x) then DuplicateKey else Ok, 0)
    case InsertUPD(x, all, nilEq) => Reply(Ok, Updates(cmp, s, x, all, nilEq))
    case Delete(x, ask, force) =>
      Reply(if !Present(cmp, s, x) then KeyNotFound
            else if Refuses(cmp, s, x, ask, force) then NodeNotDeleted else Ok, 0)
    case Search(x) => Reply(if Present(cmp, s, x) then KeyFound else KeyNotFound, 0)
  }

  /** An update updates something exactly if there is an equal item. */
  lemma UpdatesIffPresent(cmp: Comparator, s: seq<Item>, k: Item, all: bool, nilEq: bool)
    ensures Updates(cmp, s, k, all, nilEq) > 0 <==> Present(cmp, s, k)
  {
    var rest := s[LowerBound(cmp, s, k)..];
    if rest != [] {
      assert rest[0] == s[LowerBound(cmp, s, k)];
      assert DropRun(cmp, rest, k) == rest <==> !Eq(cmp, rest[0], k);
    }
  }

  function AfterAll(cmp: Comparator, s: seq<Item>, ops: seq<Op>): (t: seq<Item>)
    decreases |ops|
  {
    if |ops| == 0 then s else AfterAll(cmp, After(cmp, s, ops[0]), ops[1..])
  }

  function Answers(cmp: Comparator, s: seq<Item>, ops: seq<Op>): (r: seq<Reply>)
    decreases |ops|
  {
    if |ops| == 0 then [] else [Answer(cmp, s, ops[0])] + Answers(cmp, After(cmp, s, ops[0]), ops[1..])
  }

  // ----- the same by runs of equal items

  /** What has been deleted can be inserted again. */
  lemma InsertUndoesDelete(cmp: Comparator, s: seq<Item>, x: Item)
    requires Sorted(cmp, s) && Present(cmp, s, x)
    ensures var r := LowerBound(cmp, s, x);
      Eq(cmp, s[r], x) && Insert(cmp, KeyOrder.Delete(cmp, s, x), s[r]) == s
  {
    var r, t := LowerBound(cmp, s, x), KeyOrder.Delete(cmp, s, x);
    var y := s[r];
    forall j | 0 <= j < r ensures Less(cmp, t[j], y) {
      assert t[j] == s[j];
      Transitive(cmp, s[j], x, y);
    }
    if r < |t| {
      assert t[r] == s[r + 1];
    }
    LowerBoundUnique(cmp, t, y, r);
    assert InsertAt(t, r, y) == s;
  }

  /** Deleting takes out the head of one run. */
  lemma RunOfDelete(cmp: Comparator, s: seq<Item>, x: Item, k: Item)
    requires Sorted(cmp, s) && Present(cmp, s, x)
    ensures Eq(cmp, x, k) ==> Run(cmp, s, k) != []
    ensures Run(cmp, KeyOrder.Delete(cmp, s, x), k) == if Eq(cmp, x, k) then Run(cmp, s, k)[1..] else Run(cmp, s, k)
  {
    hide LowerBound, Run, Insert, KeyOrder.Delete, Sorted;
    var t, y := KeyOrder.Delete(cmp, s, x), s[LowerBound(cmp, s, x)];
    InsertUndoesDelete(cmp, s, x);
    RunOfInsert(cmp, t, y, k);
    EqTransfers(cmp, k, y, x);
    assert Through(k, y, k) && Through(k, x, k);
    assert [] + Run(cmp, t, k) == Run(cmp, t, k) && ([y] + Run(cmp, t, k))[1..] == Run(cmp, t, k);
  }

  /** What a call makes of the run of a key.  An insertion puts the item in front of its run, but one that
      may not repeat it only if the run is empty; a deletion takes out the head of the run, if there is
      one and the client does not refuse. */
  function RunMade(cmp: Comparator, op: Op, run: seq<Item>, k: Item): seq<Item> {
    if !Eq(cmp, op.x, k) then run
    else
      match op
      case InsertAD(x) => [x] + run
      case InsertND(x) => if run == [] then [x] else run
      case InsertUPD(x, _, _) => if run == [] then [x] else run
      case Delete(_, ask, force) => if run != [] && (ask == None || ask.value(run[0]) || force) then run[1..] else run
      case Search(_) => run
  }

  lemma RunAfter(cmp: Comparator, s: seq<Item>, op: Op, k: Item)
    requires Sorted(cmp, s)
    ensures Run(cmp, After(cmp, s, op), k) == RunMade(cmp, op, Run(cmp, s, k), k)
  {
    var x := op.x;
    PresentIffRun(cmp, s, x, k);
    if op.InsertAD? || !Present(cmp, s, x) {
      RunOfInsert(cmp, s, x, k);
    }
    if Present(cmp, s, x) {
      RunOfDelete(cmp, s, x, k);
      HeadOfRun(cmp, s, x, k);
    }
    hide Run, LowerBound, Insert, RemoveAt;
    assert [] + Run(cmp, s, k) == Run(cmp, s, k);
  }

  /** The first item of a run is the one at its key's place. */
  lemma {:induction false} HeadOfRun(cmp: Comparator, s: seq<Item>, x: Item, k: Item)
    requires Sorted(cmp, s) && Present(cmp, s, x)
    ensures Eq(cmp, x, k) ==> Run(cmp, s, k) != [] && Run(cmp, s, k)[0] == s[LowerBound(cmp, s, x)]
  {
    RunOfHead(cmp, s, k);
    if Eq(cmp, x, k) {
      EqTransfers(cmp, s[0], x, k);
      if Less(cmp, s[0], x) {
        SortedTail(cmp, s);
        HeadOfRun(cmp, s[1..], x, k);
      }
    }
  }

  /** What a call answers, by the run of its key. */
  function StatusFor(op: Op, run: seq<Item>): Status {
    match op
    case InsertAD(_) => Ok
    case InsertND(_) => if run == [] then Ok else DuplicateKey
    case InsertUPD(_, _, _) => Ok
    case Delete(_, ask, force) =>
      if run == [] then KeyNotFound else if ask == None || ask.value(run[0]) || force then Ok else NodeNotDeleted
    case Search(_) => if run == [] then KeyNotFound else KeyFound
  }

  lemma AnswerIs(cmp: Comparator, s: seq<Item>, op: Op)
    requires Sorted(cmp, s)
    ensures Answer(cmp, s, op).status == StatusFor(op, Run(cmp, s, op.x))
  {
    var x := op.x;
    assert Through(x, x, x) && Eq(cmp, x, x);
    PresentIffRun(cmp, s, x, x);
    if Present(cmp, s, x) {
      HeadOfRun(cmp, s, x, x);
    }
    hide Run, LowerBound, Updates;
  }

  lemma {:induction false} RunIsLeading(cmp: Comparator, s: seq<Item>, k: Item)
    requires Sorted(cmp, s) && AtLeast(cmp, s, k)
    ensures |Run(cmp, s, k)| == |s| - |DropRun(cmp, s, k)|
  {
    hide Run, Sorted, AtLeast;
    if s != [] && Eq(cmp, s[0], k) {
      RunOfHead(cmp, s, k);
      SortedTail(cmp, s);
      AtLeastTail(cmp, s, k);
      RunIsLeading(cmp, s[1..], k);
    } else {
      DropRunGreater(cmp, s, k);
      RunOfAbove(cmp, s, k, k);
    }
  }

  lemma PlaceParts(cmp: Comparator, s: seq<Item>, k: Item)
    requires Sorted(cmp, s)
    ensures var r := LowerBound(cmp, s, k);
      Sorted(cmp, s[r..]) && AtLeast(cmp, s[r..], k) && Run(cmp, s[..r], k) == []
  {
    var r := LowerBound(cmp, s, k);
    LowerBoundSplits(cmp, s, k);
    forall j | 0 <= j < |s[r..]| ensures cmp(k, s[r..][j]) <= 0 {
      assert s[r..][j] == s[r + j] && !Less(cmp, s[r + j], k);
    }
    RunOfNone(cmp, s[..r], k);
    hide Run, LowerBound;
  }

  lemma RunOfTail(cmp: Comparator, s: seq<Item>, r: nat, k: Item)
    requires r <= |s| && Run(cmp, s[..r], k) == []
    ensures Run(cmp, s, k) == Run(cmp, s[r..], k)
  {
    hide Run;
    Runs.RunAppend(cmp, s[..r], s[r..], k);
    assert s[..r] + s[r..] == s;
  }

  lemma RunFromPlace(cmp: Comparator, s: seq<Item>, k: Item)
    requires Sorted(cmp, s)
    ensures |Run(cmp, s, k)| == |s[LowerBound(cmp, s, k)..]| - |DropRun(cmp, s[LowerBound(cmp, s, k)..], k)|
  {
    hide Run, DropRun, LowerBound, Sorted, AtLeast;
    PlaceParts(cmp, s, k);
    RunOfTail(cmp, s, LowerBound(cmp, s, k), k);
    RunIsLeading(cmp, s[LowerBound(cmp, s, k)..], k);
  }

  /** How many nodes a call updates: none unless it updates; one, if not all are to be updated; else all
      of the run or all but one, or, of a run of one, that one or one more. */
  lemma UpdatedIs(cmp: Comparator, s: seq<Item>, op: Op)
    requires Sorted(cmp, s)
    ensures var run, n := Run(cmp, s, op.x), Answer(cmp, s, op).updated;
      if !op.InsertUPD? || run == [] then n == 0
      else if !op.all then n == 1
      else if |run| == 1 then 1 <= n <= 2
      else |run| - 1 <= n <= |run|
  {
    RunFromPlace(cmp, s, op.x);
    hide Run, DropRun, LowerBound;
  }

  // ----- what holds of every run

  lemma {:induction false} RunKeepsSorted(cmp: Comparator, s: seq<Item>, ops: seq<Op>)
    requires Sorted(cmp, s)
    ensures Sorted(cmp, AfterAll(cmp, s, ops))
    decreases |ops|
  {
    if |ops| > 0 {
      StepKeepsSorted(cmp, s, ops[0]);
      RunKeepsSorted(cmp, After(cmp, s, ops[0]), ops[1..]);
    }
  }

  lemma StepKeepsSorted(cmp: Comparator, s: seq<Item>, op: Op)
    requires Sorted(cmp, s)
    ensures Sorted(cmp, After(cmp, s, op))
  {
    InsertKeepsSorted(cmp, s, op.x);
    DeleteKeepsSorted(cmp, s, op.x);
  }

  /** Without insertions that allow duplicates a list never has any. */
  lemma {:induction false} RunKeepsStrict(cmp: Comparator, s: seq<Item>, ops: seq<Op>)
    requires StrictlySorted(cmp, s) && forall n :: 0 <= n < |ops| ==> !ops[n].InsertAD?
    ensures StrictlySorted(cmp, AfterAll(cmp, s, ops))
    decreases |ops|
  {
    hide StrictlySorted, After;
    if |ops| > 0 {
      StepKeepsStrict(cmp, s, ops[0]);
      assert forall n :: 0 <= n < |ops[1..]| ==> ops[1..][n] == ops[n + 1];
      RunKeepsStrict(cmp, After(cmp, s, ops[0]), ops[1..]);
    }
  }

  lemma StepKeepsStrict(cmp: Comparator, s: seq<Item>, op: Op)
    requires StrictlySorted(cmp, s) && !op.InsertAD?
    ensures StrictlySorted(cmp, After(cmp, s, op))
  {
    if op.InsertND? || op.InsertUPD? {
      InsertIfAbsentKeepsStrict(cmp, s, op.x);
    }
  }

  /** A call that succeeds adds or removes one item, unless it searches or has updated others; any
      other call changes nothing. */
  function Change(op: Op, reply: Reply): int {
    if reply.status != Ok || reply.updated > 0 then 0 else if op.Delete? then -1 else 1
  }

  function Changes(ops: seq<Op>, replies: seq<Reply>): int
    requires |ops| == |replies|
  {
    if |ops| == 0 then 0 else Change(ops[0], replies[0]) + Changes(ops[1..], replies[1..])
  }

  /** The number of items is that of the successful insertions less that of the successful
      deletions. */
  lemma {:induction false} RunCounts(cmp: Comparator, s: seq<Item>, ops: seq<Op>)
    ensures |Answers(cmp, s, ops)| == |ops|
    ensures |AfterAll(cmp, s, ops)| == |s| + Changes(ops, Answers(cmp, s, ops))
    decreases |ops|
  {
    if |ops| > 0 {
      RunCounts(cmp, After(cmp, s, ops[0]), ops[1..]);
      CountChanges(cmp, s, ops[0]);
      hide After, Answer;
      assert |After(cmp, s, ops[0])| == |s| + Change(ops[0], Answer(cmp, s, ops[0]));
      var r := Answers(cmp, s, ops);
      assert r[0] == Answer(cmp, s, ops[0]) && r[1..] == Answers(cmp, After(cmp, s, ops[0]), ops[1..]);
    }
  }

  lemma CountChanges(cmp: Comparator, s: seq<Item>, op: Op)
    ensures |After(cmp, s, op)| == |s| + Change(op, Answer(cmp, s, op))
  {
    hide Updates;
    if op.InsertUPD? {
      UpdatesIffPresent(cmp, s, op.x, op.all, op.nilEq);
    }
  }

  lemma {:induction false} CallsAppend(cmp: Comparator, s: seq<Item>, ops: seq<Op>, op: Op)
    ensures AfterAll(cmp, s, ops + [op]) == After(cmp, AfterAll(cmp, s, ops), op)
    ensures Answers(cmp, s, ops + [op]) == Answers(cmp, s, ops) + [Answer(cmp, AfterAll(cmp, s, ops), op)]
    decreases |ops|
  {
    hide After, Answer;
    if |ops| == 0 {
      assert ops + [op] == [op] && [op][1..] == [];
    } else {
      assert (ops + [op])[1..] == ops[1..] + [op];
      CallsAppend(cmp, After(cmp, s, ops[0]), ops[1..], op);
    }
  }

  // ----- the shape

  /** What the calls determine of a list: its items, the heights of its towers, and how many
      numbers have been drawn for them. */
  datatype Image = Image(s: seq<Item>, h: seq<nat>, drawn: nat)

  /** The height of the tallest tower after the header, at least 1. */
  function Top(h: seq<nat>): nat {
    if |h| <= 1 then 1 else var t := Top(h[..|h| - 1]); if h[|h| - 1] > t then h[|h| - 1] else t
  }

  lemma {:induction false} TopIs(h: seq<nat>)
    ensures Top(h) >= 1 && (forall p :: 1 <= p < |h| ==> h[p] <= Top(h))
    ensures Top(h) == 1 || exists p :: 1 <= p < |h| && h[p] == Top(h)
  {
    if |h| > 1 {
      var g := h[..|h| - 1];
      TopIs(g);
      assert forall p :: 1 <= p < |g| ==> g[p] == h[p];
    }
  }

  lemma TallestIsTop(h: seq<nat>, top: nat)
    requires Tallest(h, top)
    ensures Top(h) == top
  {
    TopIs(h);
  }

  /** A list made of `m` by one call: a new tower gets its height from the next number drawn. */
  function AfterImage(cmp: Comparator, max: nat, words: seq<bv32>, m: Image, op: Op): Image {
    var r := LowerBound(cmp, m.s, op.x) + 1;
    var s, change := After(cmp, m.s, op), Change(op, Answer(cmp, m.s, op));
    if change > 0 && r <= |m.h|
    then Image(s, InsertAt(m.h, r, HeightFrom(words, m.drawn, max, Top(m.h))), m.drawn + 1)
    else if change < 0 && r < |m.h| then Image(s, RemoveAt(m.h, r), m.drawn)
    else Image(s, m.h, m.drawn)
  }

  function AfterImages(cmp: Comparator, max: nat, words: seq<bv32>, m: Image, ops: seq<Op>): Image
    decreases |ops|
  {
    if |ops| == 0 then m else AfterImages(cmp, max, words, AfterImage(cmp, max, words, m, ops[0]), ops[1..])
  }

  lemma {:induction false} ImagesAppend(cmp: Comparator, max: nat, words: seq<bv32>, m: Image, ops: seq<Op>, op: Op)
    ensures AfterImages(cmp, max, words, m, ops + [op])
         == AfterImage(cmp, max, words, AfterImages(cmp, max, words, m, ops), op)
    decreases |ops|
  {
    hide AfterImage;
    if |ops| == 0 {
      assert ops + [op] == [op] && [op][1..] == [];
    } else {
      assert (ops + [op])[1..] == ops[1..] + [op];
      ImagesAppend(cmp, max, words, AfterImage(cmp, max, words, m, ops[0]), ops[1..], op);
    }
  }

  // ----- the list in memory

  ghost function ImageOf(v: View, drawn: nat): Image {
    Image(if |v.c| > 0 then ItemsOf(v.c[1..]) else [], v.h, drawn)
  }

  /** One call turns the list `w` into `v`. */
  ghost predicate Obeys(cmp: Comparator, max: nat, words: seq<bv32>, w: View, d: nat, op: Op, reply: Reply,
                        v: View, d': nat) {
    && |w.c| > 0 && |v.c| > 0
    && ImageOf(v, d') == AfterImage(cmp, max, words, ImageOf(w, d), op)
    && reply == Answer(cmp, ItemsOf(w.c[1..]), op)
  }

  lemma ImageGrows(cmp: Comparator, max: nat, words: seq<bv32>, m: Image, op: Op)
    requires Change(op, Answer(cmp, m.s, op)) > 0 && LowerBound(cmp, m.s, op.x) + 1 <= |m.h|
    ensures AfterImage(cmp, max, words, m, op)
         == Image(After(cmp, m.s, op), InsertAt(m.h, LowerBound(cmp, m.s, op.x) + 1,
                                                HeightFrom(words, m.drawn, max, Top(m.h))), m.drawn + 1)
  {
  }

  lemma ImageStays(cmp: Comparator, max: nat, words: seq<bv32>, m: Image, op: Op)
    requires Change(op, Answer(cmp, m.s, op)) == 0
    ensures AfterImage(cmp, max, words, m, op) == Image(After(cmp, m.s, op), m.h, m.drawn)
  {
  }

  predicate Inserts(op: Op) {
    op.InsertAD? || op.InsertND? || op.InsertUPD?
  }

  /** What an insertion does to the items. */
  lemma WhatInserts(cmp: Comparator, s: seq<Item>, op: Op)
    requires Inserts(op)
    ensures if op.InsertAD? || !Present(cmp, s, op.x)
            then After(cmp, s, op) == Insert(cmp, s, op.x) && Change(op, Answer(cmp, s, op)) == 1
            else After(cmp, s, op) == s && Change(op, Answer(cmp, s, op)) == 0
    ensures |Insert(cmp, s, op.x)| == |s| + 1
  {
    hide Updates, Insert, Present;
    InsertLength(cmp, s, op.x);
    if op.InsertUPD? {
      UpdatesIffPresent(cmp, s, op.x, op.all, op.nilEq);
    }
  }

  lemma InsertLength(cmp: Comparator, s: seq<Item>, k: Item)
    ensures |Insert(cmp, s, k)| == |s| + 1
  {
  }

  lemma OneInParts(cmp: Comparator, w: View, x: Item, mode: Mode, lev: nat, v: View)
    requires OneIn(cmp, w, x, mode, lev, v)
    ensures |w.c| == |w.h| > 0 && |v.c| == |v.h| > 0
    ensures var s, t := ItemsOf(w.c[1..]), ItemsOf(v.c[1..]);
      if mode == ND && Present(cmp, s, x) then t == s && v.h == w.h && |v.c| == |w.c|
      else
        && LowerBound(cmp, s, x) + 1 <= |w.h| && |v.c| == |w.c| + 1
        && t == Insert(cmp, s, x) && v.h == InsertAt(w.h, LowerBound(cmp, s, x) + 1, lev)
  {
    var s, t := ItemsOf(w.c[1..]), ItemsOf(v.c[1..]);
    assert |s| == |w.c| - 1 && |t| == |v.c| - 1 && |Insert(cmp, s, x)| == |s| + 1;
    assert PlaceIn(cmp, w.c, x) == LowerBound(cmp, s, x) + 1;
    hide Present, LowerBound, PlaceIn, Subseq, InsertAt, Inserted, Insert, ItemsOf;
  }

  /** An item goes in, unless the call may not repeat it and it is there. */
  lemma InsertionObeys(cmp: Comparator, max: nat, words: seq<bv32>, w: View, d: nat, op: Op, mode: Mode, top: nat,
          reply: Reply, v: View)
    requires Inserts(op) && mode == if op.InsertAD? then AD else ND
    requires OneIn(cmp, w, op.x, mode, HeightFrom(words, d, max, top), v) && Tallest(w.h, top)
    requires reply == Answer(cmp, ItemsOf(w.c[1..]), op)
    ensures Obeys(cmp, max, words, w, d, op, reply, v, d + |v.c| - |w.c|)
    ensures |v.c| == |w.c| + Change(op, reply)
  {
    hide Present, LowerBound, HeightFrom, InsertAt, Insert, ItemsOf, OneIn, Tallest, Top, Answer, After, Change,
         AfterImage;
    OneInParts(cmp, w, op.x, mode, HeightFrom(words, d, max, top), v);
    var s, m := ItemsOf(w.c[1..]), ImageOf(w, d);
    TallestIsTop(w.h, top);
    WhatInserts(cmp, s, op);
    if op.InsertAD? || !Present(cmp, s, op.x) {
      ImageGrows(cmp, max, words, m, op);
    } else {
      ImageStays(cmp, max, words, m, op);
    }
  }

  lemma DeletionObeys(cmp: Comparator, max: nat, words: seq<bv32>, w: View, d: nat, k: Item,
          ask: Option<Item -> bool>, force: bool, dst: bool, status: Status, asked: seq<Node>, destroyed: seq<Node>,
          v: View)
    requires |w.c| == |w.a| == |w.h| > 0 && DeleteOutcome(w, cmp, k, ask, force, dst, status, asked, destroyed, v)
    ensures Obeys(cmp, max, words, w, d, Delete(k, ask, force), Reply(status, 0), v, d)
    ensures forall j :: 0 <= j < |v.a| ==> v.a[j] in w.a
  {
    var s, q := ItemsOf(w.c[1..]), PlaceIn(cmp, w.c, k);
    hide Grown, HeightFrom, Top, LowerBound, RemoveAt, ItemsOf, AfterImage;
    assert |s| == |w.c| - 1;
    if Present(cmp, s, k) && status == Ok {
      Removed(v, q, w.c[q], w.a[q], w);
      ImageShrinks(cmp, max, words, ImageOf(w, d), Delete(k, ask, force));
    } else {
      ImageStays(cmp, max, words, ImageOf(w, d), Delete(k, ask, force));
    }
  }

  lemma ImageShrinks(cmp: Comparator, max: nat, words: seq<bv32>, m: Image, op: Op)
    requires Change(op, Answer(cmp, m.s, op)) < 0 && LowerBound(cmp, m.s, op.x) + 1 < |m.h|
    ensures AfterImage(cmp, max, words, m, op)
         == Image(After(cmp, m.s, op), RemoveAt(m.h, LowerBound(cmp, m.s, op.x) + 1), m.drawn)
  {
  }

  lemma Removed(v: View, q: nat, x: Node, b: array<Node>, w: View)
    requires Grown(v, q, x, b, w)
    ensures 1 <= q < |w.c| && |v.c| > 0 && q < |w.h|
    ensures ItemsOf(v.c[1..]) == RemoveAt(ItemsOf(w.c[1..]), q - 1) && v.h == RemoveAt(w.h, q)
    ensures forall j :: 0 <= j < |v.a| ==> v.a[j] in w.a
  {
    var s, t := ItemsOf(w.c[1..]), ItemsOf(v.c[1..]);
    ItemsGrow(v, q, x, b, w);
    InsertedUnique(t, q - 1, x.item, s);
    InsertedUnique(v.h, q, b.Length, w.h);
    forall j | 0 <= j < |v.a| ensures v.a[j] in w.a {
      assert v.a[j] == w.a[Raise(j, q)];
    }
  }

  lemma FoundIfPresent(cmp: Comparator, v: View, k: Item, found: Node?)
    requires |v.c| == |v.h| > 0 && Sorted(cmp, ItemsOf(v.c[1..])) && SearchOutcome(v, cmp, k, found)
    ensures found != null <==> Present(cmp, ItemsOf(v.c[1..]), k)
  {
    var s := ItemsOf(v.c[1..]);
    PresentIffSomeEqual(cmp, s, k);
    if found != null {
      var m: nat :| m < |v.c| && found == v.c[m] && LeftmostTallest(v, cmp, k, m);
      assert s[m - 1] == v.c[m].item;
    }
  }

  lemma SearchObeys(cmp: Comparator, max: nat, words: seq<bv32>, v: View, d: nat, k: Item, found: Node?)
    requires |v.c| == |v.h| > 0 && Sorted(cmp, ItemsOf(v.c[1..])) && SearchOutcome(v, cmp, k, found)
    ensures Obeys(cmp, max, words, v, d, Search(k), Reply(if found != null then KeyFound else KeyNotFound, 0), v, d)
  {
    hide HeightFrom, Top, SearchOutcome, Sorted, Present, LowerBound, ItemsOf;
    FoundIfPresent(cmp, v, k, found);
  }

  /** What a call has taken from the memory and given back to it. */
  twostate predicate Paid(l: SkipList, op: Op, reply: Reply)
    reads l.stat
  {
    var change := Change(op, reply);
    l.Took(if change > 0 then l.PerNode() else 0, if change < 0 then l.PerNode() else 0)
  }

  lemma Sizes(l: SkipList)
    requires l.Valid()
    ensures |l.v.c| == |l.v.a| == |l.v.h| > 0 && Sorted(l.cmp, ItemsOf(l.v.c[1..])) && Tallest(l.v.h, l.curlevel)
    ensures l.nodenum == |l.v.c| - 1
  {
  }

  method PerformInsertion(l: SkipList, op: Op) returns (reply: Reply)
    requires l.Valid() && l.Ready() && (op.InsertAD? || op.InsertND?)
    modifies l, l.v.a, l.stat, l.back, l.rng, l.rng.mt
    ensures l.Valid() && l.Ready() && OldOrNew(l) && l.rng.words == old(l.rng.words) && Paid(l, op, reply)
    ensures Obeys(l.cmp, l.maxlevel, l.rng.words, old(l.v), old(l.rng.Drawn()), op, reply, l.v, l.rng.Drawn())
  {
    hide SkipList.Valid, SkipList.Ready, OneIn, Obeys, Present, HeightFrom, Rand.Drawn, Tallest, Sorted;
    Sizes(l);
    ghost var w, d, top := l.v, l.rng.Drawn(), l.curlevel;
    var mode, status := if op.InsertAD? then AD else ND, Ok;
    if mode == AD {
      CopyPlain(l, op.x);
    } else {
      var node;
      status, node := CopyI(l, op.x, ND);
    }
    reply := Reply(status, 0);
    InsertionObeys(l.cmp, l.maxlevel, l.rng.words, w, d, op, mode, top, reply, l.v);
  }

  /** Where the run of a key ends, in nodes and in items. */
  lemma {:induction false} RunEndDrops(cmp: Comparator, c: seq<Node>, q: nat, k: Item)
    requires 1 <= q <= |c|
    ensures RunEnd(cmp, c, q, k) == |c| - |DropRun(cmp, ItemsOf(c[1..])[q - 1..], k)|
    decreases |c| - q
  {
    var rest := ItemsOf(c[1..])[q - 1..];
    if q < |c| {
      assert rest[0] == c[q].item && rest[1..] == ItemsOf(c[1..])[q..];
      RunEndDrops(cmp, c, q + 1, k);
    }
  }

  /** How many calls an update makes, from the place of the run and its end. */
  lemma CallsAre(c: seq<Node>, q: nat, e: nat, all: bool, nilEq: bool, calls: seq<Node>)
    requires 1 <= q < e <= |c| && Updated(c, q, e, if all then UpAll else UpOne, nilEq, calls)
    ensures |calls| == if all then UpdatedCount(e - q, |c| - e, nilEq) else 1
  {
  }

  /** What is updated if there is an equal node. */
  lemma UpdateCounts(cmp: Comparator, w: View, op: Op, level: nat, x: Node, b: array<Node>, status: Status,
          calls: seq<Node>, v: View)
    requires op.InsertUPD? && x.item == op.x && |w.c| > 0 && Present(cmp, ItemsOf(w.c[1..]), op.x)
    requires InsertOutcome(w, cmp, if op.all then UpAll else UpOne, level, op.nilEq, x, b, status, calls, v)
    ensures v == w && Reply(status, |calls|) == Answer(cmp, ItemsOf(w.c[1..]), op) && |calls| > 0
  {
    hide LowerBound, DropRun, Updated, ItemsOf, UpdatedCount, Grown;
    var s, q := ItemsOf(w.c[1..]), PlaceIn(cmp, w.c, op.x);
    var e := RunEnd(cmp, w.c, q, op.x);
    assert q == LowerBound(cmp, s, op.x) + 1 && |s| == |w.c| - 1 && q < e;
    UpdatesIffPresent(cmp, s, op.x, op.all, op.nilEq);
    RunEndDrops(cmp, w.c, q, op.x);
    CallsAre(w.c, q, e, op.all, op.nilEq, calls);
  }

  lemma SameObeys(cmp: Comparator, max: nat, words: seq<bv32>, w: View, d: nat, op: Op, reply: Reply)
    requires |w.c| > 0 && reply == Answer(cmp, ItemsOf(w.c[1..]), op) && op.InsertUPD? && reply.updated > 0
    ensures Obeys(cmp, max, words, w, d, op, reply, w, d)
  {
    hide Updates, LowerBound, HeightFrom;
    UpdatesIffPresent(cmp, ItemsOf(w.c[1..]), op.x, op.all, op.nilEq);
  }

  lemma UpdateObeys(cmp: Comparator, max: nat, words: seq<bv32>, w: View, d: nat, op: Op, top: nat, x: Node,
          b: array<Node>, status: Status, calls: seq<Node>, v: View)
    requires op.InsertUPD? && x.item == op.x && |w.c| == |w.h| > 0 && Tallest(w.h, top)
    requires InsertOutcome(w, cmp, if op.all then UpAll else UpOne, HeightFrom(words, d, max, top), op.nilEq, x, b,
                           status, calls, v)
    ensures Obeys(cmp, max, words, w, d, op, Reply(status, |calls|), v, d + |v.c| - |w.c|)
    ensures |v.c| == |w.c| + Change(op, Reply(status, |calls|)) && (Change(op, Reply(status, |calls|)) == 0 <==> v == w)
    ensures forall j :: 0 <= j < |v.a| ==> v.a[j] in w.a || v.a[j] == b
  {
    hide HeightFrom, Tallest, Updates, RunEnd, Obeys, Grown, OneIn, LowerBound, Updated;
    var s := ItemsOf(w.c[1..]);
    UpdatesIffPresent(cmp, s, op.x, op.all, op.nilEq);
    if Present(cmp, s, op.x) {
      UpdateCounts(cmp, w, op, HeightFrom(words, d, max, top), x, b, status, calls, v);
      SameObeys(cmp, max, words, w, d, op, Reply(status, |calls|));
    } else {
      GrownIsOneIn(cmp, w, x, b, v);
      InsertionObeys(cmp, max, words, w, d, op, ND, top, Reply(status, |calls|), v);
    }
  }

  method PerformUpdate(l: SkipList, op: Op) returns (reply: Reply)
    requires l.Valid() && l.Ready() && op.InsertUPD?
    modifies l, l.v.a, l.stat, l.back, l.rng, l.rng.mt
    ensures l.Valid() && l.Ready() && OldOrNew(l) && l.rng.words == old(l.rng.words) && Paid(l, op, reply)
    ensures Obeys(l.cmp, l.maxlevel, l.rng.words, old(l.v), old(l.rng.Drawn()), op, reply, l.v, l.rng.Drawn())
  {
    hide SkipList.Valid, SkipList.Ready, InsertOutcome, Obeys, HeightFrom, Rand.Drawn, Tallest, Sorted;
    Sizes(l);
    ghost var w, d, top := l.v, l.rng.Drawn(), l.curlevel;
    var node := new Node(op.x);
    assert l.v == w;
    var status, calls := l.InsertI(node, if op.all then UpAll else UpOne, op.nilEq);
    reply := Reply(status, |calls|);
    UpdateObeys(l.cmp, l.maxlevel, l.rng.words, w, d, op, top, node, node.next, status, calls, l.v);
  }

  method PerformDeletion(l: SkipList, k: Item, ask: Option<Item -> bool>, force: bool) returns (reply: Reply)
    requires l.Valid() && l.Ready()
    modifies l, l.v.a, l.stat, l.back
    ensures l.Valid() && l.Ready() && OldOrNew(l) && Paid(l, Delete(k, ask, force), reply)
    ensures Obeys(l.cmp, l.maxlevel, l.rng.words, old(l.v), l.rng.Drawn(), Delete(k, ask, force), reply, l.v,
                  l.rng.Drawn())
  {
    hide SkipList.Valid, DeleteOutcome, Obeys, Sorted, Tallest, Mirrored, Rand.Valid, Rand.Drawn;
    Sizes(l);
    ghost var w := l.v;
    var probe := new Node(k);
    assert l.v == w;
    var status, asked, destroyed := l.Delete(probe, ask, force);
    reply := Reply(status, 0);
    DeletionObeys(l.cmp, l.maxlevel, l.rng.words, w, l.rng.Drawn(), k, ask, force, l.dst, status, asked, destroyed,
      l.v);
  }

  method PerformSearch(l: SkipList, k: Item) returns (reply: Reply)
    requires l.Valid() && l.Ready()
    ensures l.Valid() && l.Ready() && reply.status != Ok
    ensures Obeys(l.cmp, l.maxlevel, l.rng.words, l.v, l.rng.Drawn(), Search(k), reply, l.v, l.rng.Drawn())
  {
    hide SkipList.Valid, SkipList.Ready, SearchOutcome, Obeys, Sorted, Tallest, Rand.Drawn;
    Sizes(l);
    ghost var w := l.v;
    var probe := new Node(k);
    assert l.v == w;
    var found := l.Search(probe);
    SearchObeys(l.cmp, l.maxlevel, l.rng.words, w, l.rng.Drawn(), k, found);
    reply := Reply(if found != null then KeyFound else KeyNotFound, 0);
  }

  /** Any call. */
  method Perform(l: SkipList, op: Op) returns (reply: Reply)
    requires l.Valid() && l.Ready()
    modifies l, l.v.a, l.stat, l.back, l.rng, l.rng.mt
    ensures l.Valid() && l.Ready() && OldOrNew(l) && l.rng.words == old(l.rng.words) && Paid(l, op, reply)
    ensures Obeys(l.cmp, l.maxlevel, l.rng.words, old(l.v), old(l.rng.Drawn()), op, reply, l.v, l.rng.Drawn())
  {
    hide SkipList.Valid, SkipList.Ready, Obeys, Rand.Drawn;
    match op
    case Delete(k, ask, force) => reply := PerformDeletion(l, k, ask, force);
    case Search(k) => reply := PerformSearch(l, k);
    case InsertUPD(x, all, nilEq) => reply := PerformUpdate(l, op);
    case _ => reply := PerformInsertion(l, op);
  }

  /** The list `w` has become `v` by the first `k` calls, which answered `replies`. */
  ghost predicate Obeyed(cmp: Comparator, max: nat, words: seq<bv32>, w: View, d: nat, ops: seq<Op>, k: nat,
                         replies: seq<Reply>, v: View, d': nat) {
    && k <= |ops| && |w.c| > 0 && |v.c| > 0
    && ImageOf(v, d') == AfterImages(cmp, max, words, ImageOf(w, d), ops[..k])
    && ItemsOf(v.c[1..]) == AfterAll(cmp, ItemsOf(w.c[1..]), ops[..k])
    && replies == Answers(cmp, ItemsOf(w.c[1..]), ops[..k])
  }

  lemma ObeyedNone(cmp: Comparator, max: nat, words: seq<bv32>, ops: seq<Op>, v: View, d: nat)
    requires |v.c| > 0
    ensures Obeyed(cmp, max, words, v, d, ops, 0, [], v, d)
  {
    assert ops[..0] == [];
  }

  lemma OneMoreCall(ops: seq<Op>, k: nat)
    requires k < |ops|
    ensures ops[..k + 1] == ops[..k] + [ops[k]]
  {
  }

  lemma OneMoreStep(cmp: Comparator, max: nat, words: seq<bv32>, m: Image, s: seq<Item>, ops: seq<Op>, op: Op,
          replies: seq<Reply>, reply: Reply)
    requires replies == Answers(cmp, s, ops) && reply == Answer(cmp, AfterAll(cmp, s, ops), op)
    ensures AfterImages(cmp, max, words, m, ops + [op])
         == AfterImage(cmp, max, words, AfterImages(cmp, max, words, m, ops), op)
    ensures AfterAll(cmp, s, ops + [op]) == After(cmp, AfterAll(cmp, s, ops), op)
    ensures replies + [reply] == Answers(cmp, s, ops + [op])
  {
    hide After, Answer, AfterAll, Answers, AfterImage, AfterImages;
    CallsAppend(cmp, s, ops, op);
    ImagesAppend(cmp, max, words, m, ops, op);
  }

  lemma ObeyedOneMore(cmp: Comparator, max: nat, words: seq<bv32>, w: View, d: nat, w': View, d': nat, ops: seq<Op>,
          k: nat, replies: seq<Reply>, reply: Reply, v: View, d'': nat)
    requires k < |ops| && Obeyed(cmp, max, words, w, d, ops, k, replies, w', d')
    requires Obeys(cmp, max, words, w', d', ops[k], reply, v, d'')
    ensures Obeyed(cmp, max, words, w, d, ops, k + 1, replies + [reply], v, d'')
  {
    ItemsAfter(cmp, max, words, ImageOf(w', d'), ops[k]);
    ImageItems(w', d');
    ImageItems(v, d'');
    OneMoreCall(ops, k);
    OneMoreStep(cmp, max, words, ImageOf(w, d), ItemsOf(w.c[1..]), ops[..k], ops[k], replies, reply);
    hide After, Answer, AfterAll, Answers, AfterImage, AfterImages, ItemsOf, ImageOf;
  }

  lemma ImageItems(v: View, d: nat)
    requires |v.c| > 0
    ensures ImageOf(v, d).s == ItemsOf(v.c[1..])
  {
  }

  lemma ItemsAfter(cmp: Comparator, max: nat, words: seq<bv32>, m: Image, op: Op)
    ensures AfterImage(cmp, max, words, m, op).s == After(cmp, m.s, op)
  {
  }

  lemma ObeyedEnd(cmp: Comparator, max: nat, words: seq<bv32>, w: View, d: nat, ops: seq<Op>, replies: seq<Reply>,
          v: View, d': nat)
    requires Obeyed(cmp, max, words, w, d, ops, |ops|, replies, v, d')
    ensures |w.c| > 0 && |v.c| > 0 && ItemsOf(v.c[1..]) == AfterAll(cmp, ItemsOf(w.c[1..]), ops)
    ensures replies == Answers(cmp, ItemsOf(w.c[1..]), ops)
    ensures ImageOf(v, d') == AfterImages(cmp, max, words, ImageOf(w, d), ops)
  {
    assert ops[..|ops|] == ops;
  }

  /** Any sequence of calls: the items the list ends up with and every single answer are those
      of the sorted sequence, and the shape is the one that the calls determine. */
  method PerformAll(l: SkipList, ops: seq<Op>) returns (replies: seq<Reply>)
    requires l.Valid() && l.Ready()
    modifies l, l.v.a, l.stat, l.back, l.rng, l.rng.mt
    ensures l.Valid() && l.Ready() && l.rng.words == old(l.rng.words)
    ensures l.Items() == AfterAll(l.cmp, old(l.Items()), ops)
    ensures replies == Answers(l.cmp, old(l.Items()), ops)
    ensures ImageOf(l.v, l.rng.Drawn())
         == AfterImages(l.cmp, l.maxlevel, l.rng.words, old(ImageOf(l.v, l.rng.Drawn())), ops)
  {
    hide SkipList.Valid, SkipList.Ready, Obeys, Obeyed, Sorted, Tallest, AfterAll, AfterImages, Answers, ItemsOf,
      Rand.Drawn;
    Sizes(l);
    ghost var w, d := l.v, l.rng.Drawn();
    replies := [];
    ObeyedNone(l.cmp, l.maxlevel, l.rng.words, ops, w, d);
    for k := 0 to |ops|
      invariant l.Valid() && l.Ready() && OldOrNew(l) && l.rng.words == old(l.rng.words)
      invariant Obeyed(l.cmp, l.maxlevel, l.rng.words, w, d, ops, k, replies, l.v, l.rng.Drawn())
    {
      ghost var w', d' := l.v, l.rng.Drawn();
      var reply := Perform(l, ops[k]);
      ObeyedOneMore(l.cmp, l.maxlevel, l.rng.words, w, d, w', d', ops, k, replies, reply, l.v, l.rng.Drawn());
      replies := replies + [reply];
    }
    ObeyedEnd(l.cmp, l.maxlevel, l.rng.words, w, d, ops, replies, l.v, l.rng.Drawn());
  }

  /** What the calls `ops` make of a new list of at most `max` levels. */
  function ImageAfter(cmp: Comparator, max: nat, ops: seq<Op>): Image {
    AfterImages(cmp, max, SeedState(SEED_VALUE), Image([], [max], 0), ops)
  }

  /** Every new list is seeded alike, so what a sequence of calls makes of one, down to the height
      of every tower, is a function of the calls. */
  method FromNew(maxlev: nat, cmp: Comparator, dst: bool, stat: MStat, double: bool, ops: seq<Op>)
    returns (l: SkipList, replies: seq<Reply>)
    requires 1 <= maxlev <= MAXLEVELS
    modifies stat
    ensures fresh(l) && l.Valid() && l.Ready() && l.cmp == cmp && l.maxlevel == maxlev
    ensures ImageOf(l.v, l.rng.Drawn()) == ImageAfter(cmp, maxlev, ops) && replies == Answers(cmp, [], ops)
  {
    hide SkipList.Valid, SkipList.Ready, AfterAll, AfterImages, Answers, Rand.Drawn, SeedState, SeededWords;
    var made, err := Init(maxlev, cmp, dst, stat, double);
    l := made;
    assert l.Items() == [];
    replies := PerformAll(l, ops);
  }

  /** Lists of the same image are twins, linked alike on all levels. */
  lemma SameImageTwins(s: SkipList, t: SkipList)
    requires s.Valid() && t.Valid() && s.cmp == t.cmp && s.maxlevel == t.maxlevel
    requires ImageOf(s.v, s.rng.Drawn()) == ImageOf(t.v, t.rng.Drawn())
    ensures Twins(s, t)
  {
    Sizes(s);
    Sizes(t);
    hide SkipList.Valid;
  }
}
