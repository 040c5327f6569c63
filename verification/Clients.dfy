/**
 A client with any number of lists and iterators: what any sequence of calls makes of them, and
 where its memory is.
 */
module Clients {
  import opened KeyOrder
  import opened Links
  import opened SkipLists
  import opened Blocks
  import opened Histories
  import opened Memory
  import opened Runs
  import opened Mt19937
  import Iterators

  /** What a client may ask for.  A call on a list or an iterator that is not there is refused, and
      so is a call that takes a list as source and target. */
  datatype Call =
    | NewList(max: nat, cmp: Comparator, dst: bool)
    | Use(i: nat, op: Op)
    | Fill(j: nat, whole: Whole)
    | NewIterator(i: nat, k: Option<Item>)
    | DropIterator(j: nat)
    | DropList(i: nat, data: bool)

  datatype Outcome = Refused | Done | Answered(reply: Reply) | Broken

  // ----- what the calls determine

  /** The lists and how many iterators there are at each place, 1 or, once destroyed, 0. */
  datatype Picture = Picture(lists: seq<Option<Sheet>>, alive: seq<nat>)

  predicate There(p: Picture, i: nat) {
    i < |p.lists| && p.lists[i].Some?
  }

  predicate Allowed(p: Picture, call: Call) {
    match call
    case NewList(max, _, _) => 1 <= max <= MAXLEVELS
    case Use(i, _) => There(p, i)
    case Fill(j, whole) =>
      There(p, j) && There(p, whole.i) && There(p, Second(whole)) && whole.i != j && Second(whole) != j
    case NewIterator(i, _) => There(p, i)
    case DropIterator(j) => j < |p.alive| && p.alive[j] > 0
    case DropList(i, _) => There(p, i)
  }

  /** The outcome of a call.  A call breaks if it calls a null function. */
  ghost function OutcomeOf(p: Picture, call: Call): Outcome {
    if !Allowed(p, call) then Refused
    else
      match call
      case Use(i, op) => Answered(Answer(p.lists[i].value.cmp, p.lists[i].value.items, op))
      case Fill(j, whole) => if Breaks(whole, p.lists[j].value, p.lists[whole.i].value) then Broken else Done
      case DropList(i, _) => if p.lists[i].value.dst then Done else Refused
      case _ => Done
  }

  /** What a call leaves behind that does not break. */
  ghost function Next(p: Picture, call: Call): Picture {
    if !Allowed(p, call) then p
    else
      match call
      case NewList(_, cmp, dst) => p.(lists := p.lists + [Some(Sheet(cmp, dst, []))])
      case Use(i, op) => p.(lists := p.lists[i := Some(Used(p.lists[i].value, op))])
      case Fill(j, whole) =>
        var t, s, s2 := p.lists[j].value, p.lists[whole.i].value, p.lists[Second(whole)].value;
        p.(lists := p.lists[j := Some(Filled(whole, t, s, s2))])
      case NewIterator(_, _) => p.(alive := p.alive + [1])
      case DropIterator(j) => p.(alive := p.alive[j := 0])
      case DropList(i, _) => if p.lists[i].value.dst then p.(lists := p.lists[i := None]) else p
  }

  ghost function NextAll(p: Picture, calls: seq<Call>): Picture
    decreases |calls|
  {
    if calls == [] then p else NextAll(Next(p, calls[0]), calls[1..])
  }

  /** The outcomes up to the first call that breaks. */
  ghost function OutcomesOf(p: Picture, calls: seq<Call>): seq<Outcome>
    decreases |calls|
  {
    if calls == [] then []
    else if OutcomeOf(p, calls[0]).Broken? then [Broken]
    else [OutcomeOf(p, calls[0])] + OutcomesOf(Next(p, calls[0]), calls[1..])
  }

  /** What a copy, join or intersection makes of every run of the target `t`, from the sources `s` and
      `s2`: a copy, and a join that may repeat items, put the source's run in front, reversed; any other
      join keeps a run that is there and else takes the first item of the source's; an intersection
      does with the merge of the two sources, in this order, as a copy with its source. */
  ghost predicate RunFilled(whole: Whole, t: Sheet, s: Sheet, s2: Sheet, r: Sheet, k: Item) {
    Run(t.cmp, r.items, k)
      == if whole.JoinOf? && whole.unique
         then if Run(t.cmp, t.items, k) != [] then Run(t.cmp, t.items, k) else Take(1, Run(t.cmp, s.items, k))
         else
           var m := if whole.MeetOf? then Merge(s.cmp, s.items, s2.items) else s.items;
           Reverse(Run(t.cmp, m, k)) + Run(t.cmp, t.items, k)
  }

  ghost predicate RunsFilled(whole: Whole, t: Sheet, s: Sheet, s2: Sheet, r: Sheet) {
    r.cmp == t.cmp && r.dst == t.dst && forall k :: RunFilled(whole, t, s, s2, r, k)
  }

  /** One list has been filled like that, and nothing else has changed. */
  ghost predicate FilledIn(p: Picture, call: Call, p': Picture) {
    && call.Fill? && Allowed(p, call) && There(p', call.j) && p'.alive == p.alive
    && |p'.lists| == |p.lists| && (forall i :: 0 <= i < |p.lists| && i != call.j ==> p'.lists[i] == p.lists[i])
    && RunsFilled(call.whole, p.lists[call.j].value, p.lists[call.whole.i].value,
                  p.lists[Second(call.whole)].value, p'.lists[call.j].value)
  }

  lemma FilledHasRuns(whole: Whole, t: Sheet, s: Sheet, s2: Sheet)
    requires Sorted(t.cmp, t.items)
    ensures RunsFilled(whole, t, s, s2, Filled(whole, t, s, s2))
  {
    hide Sorted, InsertAll, InsertAllAbsent, Merge, Run, Reverse, Take;
    forall k ensures RunFilled(whole, t, s, s2, Filled(whole, t, s, s2), k) {
      if whole.JoinOf? && whole.unique {
        RunOfInsertAllAbsent(t.cmp, t.items, s.items, k);
      } else {
        RunOfInsertAll(t.cmp, t.items, if whole.MeetOf? then Merge(s.cmp, s.items, s2.items) else s.items, k);
      }
    }
  }

  lemma NextIsFilled(p: Picture, call: Call)
    requires call.Fill? && Allowed(p, call) && Sorted(p.lists[call.j].value.cmp, p.lists[call.j].value.items)
    ensures FilledIn(p, call, Next(p, call))
  {
    hide RunsFilled, Filled, Sorted;
    FilledHasRuns(call.whole, p.lists[call.j].value, p.lists[call.whole.i].value, p.lists[Second(call.whole)].value);
  }

  /** A client that breaks: two lists without a node destroyer, which is optional, an item in each,
      and a join that may not repeat it. */
  lemma JoinBreaks(cmp: Comparator, x: Item)
    ensures var calls := [NewList(MAXLEVELS, cmp, false), NewList(MAXLEVELS, cmp, false), Use(0, InsertAD(x)),
                          Use(1, InsertAD(x)), Fill(0, JoinOf(1, true))];
      OutcomesOf(Picture([], []), calls) == [Done, Done, Answered(Reply(Ok, 0)), Answered(Reply(Ok, 0)), Broken]
  {
    var calls := [NewList(MAXLEVELS, cmp, false), NewList(MAXLEVELS, cmp, false), Use(0, InsertAD(x)),
                  Use(1, InsertAD(x)), Fill(0, JoinOf(1, true))];
    var none, one := Some(Sheet(cmp, false, [])), Some(Sheet(cmp, false, [x]));
    assert Insert(cmp, [], x) == [x];
    assert Through(x, x, x) && Eq(cmp, x, x);
    var p1, p2 := Picture([none], []), Picture([none, none], []);
    var p3, p4 := Picture([one, none], []), Picture([one, one], []);
    assert Has(cmp, [x], [x][0]);
    assert Next(Picture([], []), calls[0]) == p1 && Next(p1, calls[1]) == p2;
    assert Next(p2, calls[2]) == p3 && Next(p3, calls[3]) == p4;
    assert OutcomeOf(p4, calls[4]) == Broken;
    assert OutcomesOf(p4, calls[4..]) == [Broken];
    hide Next, OutcomeOf;
    OutcomesStep(p3, calls[3..]);
    OutcomesStep(p2, calls[2..]);
    OutcomesStep(p1, calls[1..]);
    OutcomesStep(Picture([], []), calls);
  }

  lemma OutcomesStep(p: Picture, calls: seq<Call>)
    requires calls != [] && !OutcomeOf(p, calls[0]).Broken?
    ensures OutcomesOf(p, calls) == [OutcomeOf(p, calls[0])] + OutcomesOf(Next(p, calls[0]), calls[1..])
  {
  }

  // ----- the lists in memory

  ghost predicate Shows(lists: seq<SkipList?>, sheets: seq<Option<Sheet>>)
    reads set i | 0 <= i < |lists| :: lists[i]
  {
    |sheets| == |lists| && forall i :: 0 <= i < |lists| ==> sheets[i] == Seen(lists[i])
  }

  /** `alive` marks the iterators that have not been destroyed. */
  ghost predicate Alive(iterators: seq<Iterators.Iterator?>, stat: MStat, alive: seq<nat>) {
    && |alive| == |iterators|
    && forall j :: 0 <= j < |iterators| ==>
         if iterators[j] == null then alive[j] == 0 else alive[j] == 1 && iterators[j].list.stat == stat
  }

  /** How many are not null. */
  function Live(s: seq<object?>): nat {
    if s == [] then 0 else (if s[0] == null then 0 else 1) + Live(s[1..])
  }

  lemma {:induction false} SumIs(lists: seq<object?>, held: seq<nat>, nodes: seq<nat>, double: bool)
    requires |lists| == |held| == |nodes|
    requires forall i :: 0 <= i < |lists| && lists[i] == null ==> held[i] == nodes[i] == 0
    requires forall i :: 0 <= i < |lists| && lists[i] != null ==>
               held[i] == if double then 5 + 2 * nodes[i] else 4 + nodes[i]
    ensures Sum(held) == if double then 5 * Live(lists) + 2 * Sum(nodes) else 4 * Live(lists) + Sum(nodes)
  {
    if lists != [] {
      SumIs(lists[1..], held[1..], nodes[1..], double);
    }
  }

  lemma {:induction false} AliveIs(s: seq<object?>, alive: seq<nat>)
    requires |s| == |alive| && forall j :: 0 <= j < |s| ==> alive[j] == if s[j] == null then 0 else 1
    ensures Sum(alive) == Live(s)
  {
    if s != [] {
      AliveIs(s[1..], alive[1..]);
    }
  }

  /** A client; the lists and iterators that it has destroyed are null. */
  class Client {
    const stat: MStat
    const double: bool
    var lists: seq<SkipList?>
    var iterators: seq<Iterators.Iterator?>
    ghost var sheets: seq<Option<Sheet>>
    ghost var held: seq<nat>
    ghost var alive: seq<nat>
    ghost var repr: set<object>

    ghost function Now(): Picture
      reads this
    {
      Picture(sheets, alive)
    }

    /** The lists are well-formed and apart and hold what the sheets say, and the blocks allocated and
        not freed are those that the live lists hold, 4 each and one a node, or 5 each and two a node
        in the doubly linked build, and one for each live iterator. */
    ghost predicate Valid()
      reads *
    {
      && this !in repr && AllKept(lists, stat, double, repr) && Shows(lists, sheets)
      && Alive(iterators, stat, alive) && Account(lists, held, stat, Sum(alive))
    }

    constructor (double: bool)
      ensures Valid() && fresh(repr) && this.double == double && Now() == Picture([], [])
      ensures lists == [] && iterators == []
    {
      var st := new MStat();
      stat, this.double := st, double;
      lists, iterators, sheets, held, alive, repr := [], [], [], [], [], {st};
    }

    /** The client is not part of a list. */
    lemma Aside(lists: seq<SkipList?>)
      ensures forall k :: 0 <= k < |lists| ==> this !in Parts(lists[k])
    {
    }

    /** What is there in the picture is there in memory. */
    lemma WhatIsThere()
      requires Valid()
      ensures |sheets| == |lists| && |alive| == |iterators|
      ensures forall i :: 0 <= i < |lists| ==> (There(Now(), i) <==> lists[i] != null)
      ensures forall i :: 0 <= i < |lists| && lists[i] != null ==> sheets[i].value.dst == lists[i].dst
      ensures forall j :: 0 <= j < |iterators| ==> (alive[j] > 0 <==> iterators[j] != null)
    {
    }

    /** The lists are sorted. */
    lemma SheetSorted(i: nat)
      requires Valid() && i < |lists| && lists[i] != null
      ensures i < |sheets| && sheets[i].Some? && Sorted(sheets[i].value.cmp, sheets[i].value.items)
    {
      hide Account, Alive;
      assert Good(lists[i], stat, double);
      Histories.Sizes(lists[i]);
    }

    method MakeList(max: nat, cmp: Comparator, dst: bool)
      requires Valid()
      modifies this, stat
      ensures Valid() && fresh(repr - old(repr)) && Now() == Next(old(Now()), NewList(max, cmp, dst))
      ensures iterators == old(iterators)
      ensures if 1 <= max <= MAXLEVELS
              then |lists| == |old(lists)| + 1 && lists[..|old(lists)|] == old(lists) && lists[|old(lists)|] != null
              else lists == old(lists)
    {
      hide AllKept, Account, Sum, Parts, SheetOf;
      var more;
      ghost var repr', held';
      more, repr', held' := NewCounted(lists, max, cmp, dst, stat, double, repr, held, Sum(alive));
      Aside(more);
      ghost var sheets' := if 1 <= max <= MAXLEVELS then sheets + [Some(Sheet(cmp, dst, []))] else sheets;
      if 1 <= max <= MAXLEVELS {
        assert forall k :: 0 <= k < |lists| ==> more[k] == more[..|lists|][k];
      }
      assert Shows(more, sheets');
      lists, sheets, repr, held := more, sheets', repr', held';
    }

    /** One of the operations on one of the lists; the others stay as they are. */
    method UseList(i: nat, op: Op) returns (reply: Reply)
      requires Valid() && i < |lists| && lists[i] != null
      modifies this, repr
      ensures Valid() && fresh(repr - old(repr)) && lists == old(lists) && iterators == old(iterators)
      ensures Now() == Next(old(Now()), Use(i, op)) && OutcomeOf(old(Now()), Use(i, op)) == Answered(reply)
    {
      hide AllKept, Account, Sum, Parts, Answer, SheetOf, Used;
      ghost var repr', held';
      reply, repr', held' := UseCounted(lists, i, op, stat, double, repr, held, Sum(alive));
      Aside(lists);
      ghost var sheets' := sheets[i := Some(Used(sheets[i].value, op))];
      assert Shows(lists, sheets');
      repr, held, sheets := repr', held', sheets';
    }

    /** A copy, join or intersection into one of the lists; the others stay as they are. */
    method FillList(j: nat, whole: Whole) returns (nullCall: bool)
      requires Valid() && Allowed(Now(), Fill(j, whole))
      modifies this, repr
      ensures Valid() && fresh(repr - old(repr)) && lists == old(lists) && iterators == old(iterators)
      ensures OutcomeOf(old(Now()), Fill(j, whole)) == if nullCall then Broken else Done
      ensures !nullCall ==> Now() == Next(old(Now()), Fill(j, whole))
      ensures !nullCall ==> FilledIn(old(Now()), Fill(j, whole), Now())
    {
      hide AllKept, Account, Sum, Parts, Filled, Breaks, SheetOf, FilledIn, Sorted;
      WhatIsThere();
      SheetSorted(j);
      NextIsFilled(Now(), Fill(j, whole));
      ghost var repr', held';
      nullCall, repr', held' := WholeCounted(lists, j, whole, stat, double, repr, held, Sum(alive));
      Aside(lists);
      ghost var sheets' := sheets[j := Seen(lists[j])];
      assert Shows(lists, sheets');
      repr, held, sheets := repr', held', sheets';
    }

    /** A new iterator over one of the lists, or over its nodes equal to a probe, even if there are
        none. */
    method MakeIterator(i: nat, k: Option<Item>)
      requires Valid() && i < |lists| && lists[i] != null
      modifies this, stat
      ensures Valid() && repr == old(repr) && lists == old(lists)
      ensures Now() == Next(old(Now()), NewIterator(i, k))
      ensures |iterators| == |old(iterators)| + 1 && iterators[..|old(iterators)|] == old(iterators)
      ensures iterators[|old(iterators)|] != null
    {
      hide AllKept, Account, Sum, Parts;
      var it := IterateCounted(lists, i, k, stat, double, repr, held, Sum(alive));
      SumAdd(alive, 1);
      Aside(lists);
      assert Shows(lists, sheets);
      iterators, alive := iterators + [it], alive + [1];
    }

    method LoseIterator(j: nat)
      requires Valid() && j < |iterators| && iterators[j] != null
      modifies this, stat
      ensures Valid() && repr == old(repr) && lists == old(lists) && iterators == old(iterators)[j := null]
      ensures Now() == Next(old(Now()), DropIterator(j))
    {
      hide AllKept, Account, Sum, Parts;
      SumChange(alive, j, 0);
      LoseCounted(lists, iterators[j], stat, double, repr, held, Sum(alive));
      Aside(lists);
      assert Shows(lists, sheets);
      iterators, alive := iterators[j := null], alive[j := 0];
    }

    /** Destroys a list, unless it has no node destroyer. */
    method LoseList(i: nat, data: bool) returns (cleanups: seq<Cleanup>)
      requires Valid() && i < |lists| && lists[i] != null
      modifies this, repr
      ensures Valid() && repr == old(repr) && iterators == old(iterators)
      ensures Now() == Next(old(Now()), DropList(i, data))
      ensures lists == if old(lists)[i].dst then old(lists)[i := null] else old(lists)
      ensures |old(lists[i].v.c)| > 0
        && cleanups == if old(lists)[i].dst then Cleanups(old(lists[i].v.c)[1..], data) else []
    {
      hide AllKept, Account, Sum, Parts, Cleanups, SheetOf;
      WhatIsThere();
      var fewer;
      ghost var held';
      fewer, cleanups, held' := DropCounted(lists, i, data, stat, double, repr, held, Sum(alive));
      Aside(fewer);
      ghost var sheets' := if lists[i].dst then sheets[i := None] else sheets;
      assert Shows(fewer, sheets');
      lists, sheets, held := fewer, sheets', held';
    }

    lemma CountIsIn()
      requires Valid()
      ensures stat in repr
    {
    }

    /** Any call. */
    method Do(call: Call) returns (outcome: Outcome)
      requires Valid()
      modifies this, repr
      ensures Valid() && fresh(repr - old(repr)) && outcome == OutcomeOf(old(Now()), call)
      ensures !outcome.Broken? ==> Now() == Next(old(Now()), call)
      ensures call.Fill? && outcome == Done ==> FilledIn(old(Now()), call, Now())
    {
      hide Valid, Answer, Used, Filled, Breaks, FilledIn;
      CountIsIn();
      WhatIsThere();
      outcome := Done;
      match call
      case NewList(max, cmp, dst) =>
        MakeList(max, cmp, dst);
        outcome := if 1 <= max <= MAXLEVELS then Done else Refused;
      case Use(i, op) =>
        if !(i < |lists| && lists[i] != null) {
          return Refused;
        }
        var reply := UseList(i, op);
        outcome := Answered(reply);
      case Fill(j, whole) =>
        if !(j < |lists| && lists[j] != null && whole.i < |lists| && lists[whole.i] != null
             && Second(whole) < |lists| && lists[Second(whole)] != null && whole.i != j && Second(whole) != j) {
          return Refused;
        }
        var nullCall := FillList(j, whole);
        outcome := if nullCall then Broken else Done;
      case NewIterator(i, k) =>
        if !(i < |lists| && lists[i] != null) {
          return Refused;
        }
        MakeIterator(i, k);
      case DropIterator(j) =>
        if !(j < |iterators| && iterators[j] != null) {
          return Refused;
        }
        LoseIterator(j);
      case DropList(i, data) =>
        if !(i < |lists| && lists[i] != null) {
          return Refused;
        }
        outcome := if lists[i].dst then Done else Refused;
        var cleanups := LoseList(i, data);
    }

    /** Any sequence of calls, up to the first that breaks. */
    method DoAll(calls: seq<Call>) returns (outcomes: seq<Outcome>)
      requires Valid()
      modifies this, repr
      ensures Valid() && fresh(repr - old(repr)) && outcomes == OutcomesOf(old(Now()), calls)
      ensures Broken !in outcomes ==> Now() == NextAll(old(Now()), calls)
    {
      hide Valid, Next, OutcomeOf, FilledIn;
      outcomes := [];
      for n := 0 to |calls|
        invariant Valid() && fresh(repr - old(repr)) && Broken !in outcomes
        invariant outcomes + OutcomesOf(Now(), calls[n..]) == OutcomesOf(old(Now()), calls)
        invariant NextAll(Now(), calls[n..]) == NextAll(old(Now()), calls)
      {
        assert calls[n..][0] == calls[n] && calls[n..][1..] == calls[n + 1..];
        var outcome := Do(calls[n]);
        outcomes := outcomes + [outcome];
        if outcome.Broken? {
          return;
        }
      }
    }

    /** Conservation, after any sequence of calls: in the single-linked build the blocks allocated and
        not freed are 4 for each live list, one for each of its nodes and one for each live iterator;
        in the doubly linked build 5 for each list and two for each node. */
    lemma Conservation() returns (nodes: seq<nat>)
      requires Valid()
      ensures |nodes| == |lists|
        && forall i :: 0 <= i < |lists| ==> nodes[i] == if lists[i] == null then 0 else lists[i].nodenum
      ensures stat.alloc_count - stat.freed_count
           == (if double then 5 * Live(lists) + 2 * Sum(nodes) else 4 * Live(lists) + Sum(nodes)) + Live(iterators)
    {
      nodes := seq(|lists|, i requires 0 <= i < |lists| reads * => if lists[i] == null then 0 else lists[i].nodenum);
      forall i | 0 <= i < |lists| && lists[i] != null
        ensures held[i] == if double then 5 + 2 * nodes[i] else 4 + nodes[i]
      {
        assert Good(lists[i], stat, double);
      }
      hide AllKept;
      SumIs(lists, held, nodes, double);
      AliveIs(iterators, alive);
    }

    /** The library's own test tells exactly whether every list and every iterator has been
        destroyed. */
    method Cleaned() returns (clean: bool)
      requires Valid()
      ensures clean <==> ((forall i :: 0 <= i < |lists| ==> lists[i] == null)
                          && (forall j :: 0 <= j < |iterators| ==> iterators[j] == null))
    {
      hide AllKept, Sum;
      SumZero(held);
      SumZero(alive);
      clean := stat.MemoryCleaned();
    }
  }
}
