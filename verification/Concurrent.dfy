/**
 A list shared by threads that take one of the two locks for every call.  While a thread is
 inside for writing, it may write to the list at any moment and so leave it in any state; a call
 is known to do its work, as proved of the list in memory, only if nobody else wrote to the list
 while it was running.
 */
module Concurrent {
  import opened KeyOrder
  import opened Links
  import opened SkipLists
  import opened Blocks
  import opened Mt19937
  import opened Threads
  import opened Locks
  import H = Histories
  import Bulk

  /** What never changes of the list: its comparator, its levels and what its generator yields. */
  datatype Kit = Kit(cmp: Comparator, max: nat, words: seq<bv32>)

  /** What the memory holds: a list of that image, or something that is no list. */
  type Store = Option<H.Image>

  /** A call that has been made, and the answer once there is one. */
  datatype Entry = Entry(op: H.Op, answer: Option<H.Reply>)

  /** What a thread is about: its call, the number of the call once the thread is inside, the
      memory that it found there, and whether only the thread itself has written since. */
  datatype Job = Job(op: H.Op, at: nat, start: Store, alone: bool)

  /** The threads, the memory, their jobs, and the calls in the order in which the lock was got. */
  datatype World = World(s: System, d: Store, jobs: seq<Job>, log: seq<Entry>)

  function Ops(log: seq<Entry>): (ops: seq<H.Op>)
    ensures |ops| == |log| && forall k :: 0 <= k < |log| ==> ops[k] == log[k].op
  {
    seq(|log|, k requires 0 <= k < |log| => log[k].op)
  }

  /** A search takes the lock for reading, every other call for writing. */
  predicate Suits(op: H.Op, k: Kind) {
    k == if op.Search? then R else W
  }

  /** What a call makes of the list `m`, and what calls one after the other make of it. */
  function Makes(kit: Kit, m: H.Image, op: H.Op): H.Image {
    H.AfterImage(kit.cmp, kit.max, kit.words, m, op)
  }

  function MakesAll(kit: Kit, m: H.Image, ops: seq<H.Op>): H.Image {
    H.AfterImages(kit.cmp, kit.max, kit.words, m, ops)
  }

  /** What is known of a call that a thread has run with nobody else writing: it answers and leaves
      behind what it should. */
  ghost predicate Sequential(kit: Kit, job: Job, k: Kind, answer: H.Reply, d: Store) {
    job.alone && job.start.Some? ==>
      && answer == H.Answer(kit.cmp, job.start.value.s, job.op)
      && (k == W ==> d == Some(Makes(kit, job.start.value, job.op)))
  }

  /** A call of the list in memory does so. */
  method CallAlone(l: SkipList, op: H.Op, ghost job: Job, k: Kind) returns (answer: H.Reply)
    requires l.Valid() && l.Ready() && job.op == op && job.start == Some(H.ImageOf(l.v, l.rng.Drawn()))
    modifies l, l.v.a, l.stat, l.back, l.rng, l.rng.mt
    ensures l.Valid() && l.Ready() && l.rng.words == old(l.rng.words)
    ensures Sequential(Kit(l.cmp, l.maxlevel, l.rng.words), job, k, answer, Some(H.ImageOf(l.v, l.rng.Drawn())))
  {
    hide SkipList.Valid, SkipList.Ready, Rand.Drawn, H.Obeys, H.ImageOf, Sequential;
    ghost var w, d := l.v, l.rng.Drawn();
    answer := H.Perform(l, op);
    ObeysIsSequential(l.cmp, l.maxlevel, l.rng.words, w, d, job, k, answer, l.v, l.rng.Drawn());
  }

  lemma ObeysIsSequential(cmp: Comparator, max: nat, words: seq<bv32>, w: View, d: nat, job: Job, k: Kind,
          answer: H.Reply, v: View, d': nat)
    requires H.Obeys(cmp, max, words, w, d, job.op, answer, v, d') && job.start == Some(H.ImageOf(w, d))
    ensures Sequential(Kit(cmp, max, words), job, k, answer, Some(H.ImageOf(v, d')))
  {
    H.ImageItems(w, d);
    hide H.ImageOf, H.AfterImage, H.Answer;
  }

  /** A step of the lock in which no thread leaves.  Whoever gets in has its call logged. */
  ghost predicate Moves(ver: Version, w: World, e: Event, w': World) {
    && Step(ver, w.s, e, w'.s) && !e.Leave? && w'.d == w.d && |w.jobs| == |w.s.t|
    && exists op ::
         && (if e.Enter? || e.Try? then Suits(op, e.k) else op == w.jobs[e.i].op)
         && if w'.s.t[e.i].Inside?
            then w'.jobs == w.jobs[e.i := Job(op, |w.log|, w.d, true)] && w'.log == w.log + [Entry(op, None)]
            else w'.jobs == w.jobs[e.i := w.jobs[e.i].(op := op)] && w'.log == w.log
  }

  ghost predicate Finishes(ver: Version, kit: Kit, w: World, e: Event,
                                  w': World) {
    && Step(ver, w.s, e, w'.s) && e.Leave? && w'.d == w.d && w'.jobs == w.jobs && |w.jobs| == |w.s.t|
    && exists answer ::
         && Sequential(kit, w.jobs[e.i], w.s.t[e.i].kind, answer, w.d)
         && w'.log == if w.jobs[e.i].at >= |w.log| then w.log
                      else w.log[w.jobs[e.i].at := Entry(w.jobs[e.i].op, Some(answer))]
  }

  /** A thread inside for writing writes whatever it likes. */
  ghost predicate Writes(w: World, i: nat, w': World) {
    && i < |w.s.t| && w.s.t[i] == Inside(W) && w'.s == w.s && w'.log == w.log && |w'.jobs| == |w.jobs|
    && forall j :: 0 <= j < |w.jobs| ==>
         w'.jobs[j] == if j == i then w.jobs[j] else w.jobs[j].(alone := false)
  }

  ghost predicate Acts(ver: Version, kit: Kit, w: World, e: Event,
                                w': World) {
    Moves(ver, w, e, w') || Finishes(ver, kit, w, e, w') || Writes(w, e.i, w')
  }

  /** Any number of threads, none of which has used the lock yet, and a list of image `m`. */
  ghost predicate IsHistory(ver: Version, kit: Kit, m: H.Image,
                               run: seq<World>, events: seq<Event>) {
    && |run| == |events| + 1 && run[0].s.l == INITIAL && |run[0].jobs| == |run[0].s.t|
    && (forall j :: 0 <= j < |run[0].s.t| ==> run[0].s.t[j] == Idle)
    && run[0].d == Some(m) && run[0].log == []
    && forall n :: 0 <= n < |events| ==> Acts(ver, kit, run[n], events[n], run[n + 1])
  }

  // ----- the invariant

  /** A thread inside works on what the calls before its own have made of the list. */
  ghost predicate Working(kit: Kit, m: H.Image, w: World, job: Job,
                                   k: Kind) {
    && job.at < |w.log| && w.log[job.at] == Entry(job.op, None) && job.alone && Suits(job.op, k)
    && job.start == Some(MakesAll(kit, m, Ops(w.log[..job.at])))
    && (k == W ==> job.at == |w.log| - 1)
  }

  ghost predicate Settled(kit: Kit, m: H.Image, w: World) {
    w.d == Some(MakesAll(kit, m, Ops(w.log)))
  }

  ghost predicate Right(kit: Kit, m: H.Image, log: seq<Entry>, k: nat)
    requires k < |log|
  {
    log[k].answer.Some? ==> log[k].answer.value == H.Answer(kit.cmp, MakesAll(kit, m, Ops(log[..k])).s, log[k].op)
  }

  /** Some thread is inside for the call of that number. */
  ghost predicate Pending(w: World, k: nat) {
    exists i :: 0 <= i < |w.s.t| && i < |w.jobs| && w.s.t[i].Inside? && w.jobs[i].at == k
  }

  ghost predicate WInv(ver: Version, kit: Kit, m: H.Image, w: World) {
    && Inv(ver, w.s) && |w.jobs| == |w.s.t|
    && (forall i :: 0 <= i < |w.s.t| && w.s.t[i].Inside? ==> Working(kit, m, w, w.jobs[i], w.s.t[i].kind))
    && (forall i, j :: 0 <= i < |w.s.t| && 0 <= j < |w.s.t| && i != j && w.s.t[i].Inside? && w.s.t[j].Inside? ==>
          w.jobs[i].at != w.jobs[j].at)
    && (w.s.l.wActive == 0 ==> Settled(kit, m, w))
    && (forall i :: 0 <= i < |w.s.t| && w.s.t[i] != Idle ==> Suits(w.jobs[i].op, w.s.t[i].kind))
    && (forall k :: 0 <= k < |w.log| ==> Right(kit, m, w.log, k))
    && forall k :: 0 <= k < |w.log| && w.log[k].answer == None ==> Pending(w, k)
  }

  lemma AfterOneMore(kit: Kit, m: H.Image, log: seq<Entry>, e: Entry)
    ensures MakesAll(kit, m, Ops(log + [e])) == Makes(kit, MakesAll(kit, m, Ops(log)), e.op)
  {
    assert Ops(log + [e]) == Ops(log) + [e.op];
    H.ImagesAppend(kit.cmp, kit.max, kit.words, m, Ops(log), e.op);
  }

  /** What is inside: at most one writer, and nobody else then. */
  lemma Alone(ver: Version, s: System, i: nat)
    requires Inv(ver, s) && i < |s.t| && s.t[i].Inside?
    ensures s.t[i] == Inside(W) ==> s.l.wActive == 1 && forall j :: 0 <= j < |s.t| && j != i ==> !s.t[j].Inside?
    ensures s.t[i] == Inside(R) ==> s.l.wActive == 0
  {
    WriterCounts(ver, s, i);
    if s.t[i] == Inside(W) {
      forall j: nat | j < |s.t| && j != i ensures !s.t[j].Inside? {
        Exclusion(ver, s, i, j);
      }
    }
    assert s.t[i].kind == R || s.t[i].kind == W;
  }

  /** Answering one call leaves everything else of the log as it was. */
  lemma AnswerOne(kit: Kit, m: H.Image, log: seq<Entry>, at: nat, answer: H.Reply)
    requires at < |log|
    requires forall k :: 0 <= k < |log| ==> Right(kit, m, log, k)
    requires answer == H.Answer(kit.cmp, MakesAll(kit, m, Ops(log[..at])).s, log[at].op)
    ensures var log' := log[at := Entry(log[at].op, Some(answer))];
      && Ops(log') == Ops(log)
      && (forall k :: 0 <= k <= |log| ==> Ops(log'[..k]) == Ops(log[..k]))
      && forall k :: 0 <= k < |log'| ==> Right(kit, m, log', k)
  {
    var log' := log[at := Entry(log[at].op, Some(answer))];
    forall k | 0 <= k <= |log| ensures Ops(log'[..k]) == Ops(log[..k]) {
    }
    forall k | 0 <= k < |log'| ensures Right(kit, m, log', k) {
      assert Right(kit, m, log, k);
      assert Ops(log'[..k]) == Ops(log[..k]);
    }
  }

  lemma IsPending(w: World, i: nat)
    requires i < |w.s.t| && i < |w.jobs| && w.s.t[i].Inside?
    ensures Pending(w, w.jobs[i].at)
  {
  }

  lemma StillPending(w: World, w': World, k: nat)
    requires Pending(w, k) && |w'.s.t| == |w.s.t| && |w.jobs| == |w'.jobs|
    requires forall i :: 0 <= i < |w.s.t| && i < |w.jobs| && w.s.t[i].Inside? && w.jobs[i].at == k ==>
               w'.s.t[i].Inside? && w'.jobs[i].at == k
    ensures Pending(w', k)
  {
  }

  lemma FinishesKeeps(ver: Version, kit: Kit, m: H.Image, w: World,
          e: Event, w': World)
    requires WInv(ver, kit, m, w) && Finishes(ver, kit, w, e, w')
    ensures WInv(ver, kit, m, w')
  {
    hide Inv, Makes, H.Answer, MakesAll, Ops, Right, N, Pending;
    InvStep(ver, w.s, e, w'.s);
    var i, job := e.i, w.jobs[e.i];
    var at, k := job.at, w.s.t[i].kind;
    assert Working(kit, m, w, job, k);
    var answer :| Sequential(kit, job, k, answer, w.d) && w'.log == w.log[at := Entry(job.op, Some(answer))];
    Alone(ver, w.s, i);
    AnswerOne(kit, m, w.log, at, answer);
    forall j | 0 <= j < |w'.s.t| ensures w'.s.t[j].Inside? ==> j != i && w.s.t[j] == w'.s.t[j] {
    }
    assert Settled(kit, m, w') by {
      if k == W {
        assert w.log == w.log[..at] + [w.log[at]];
        AfterOneMore(kit, m, w.log[..at], w.log[at]);
      }
    }
    forall j | 0 <= j < |w'.s.t| && w'.s.t[j].Inside?
      ensures Working(kit, m, w', w'.jobs[j], w'.s.t[j].kind)
    {
      assert Working(kit, m, w, w.jobs[j], w.s.t[j].kind);
    }
    forall n: nat | n < |w'.log| && w'.log[n].answer == None ensures Pending(w', n) {
      StillPending(w, w', n);
    }
  }

  /** A new call at the end of the log leaves what comes before it as it was. */
  lemma LogOneMore(kit: Kit, m: H.Image, log: seq<Entry>, op: H.Op)
    requires forall k :: 0 <= k < |log| ==> Right(kit, m, log, k)
    ensures var log' := log + [Entry(op, None)];
      && (forall k :: 0 <= k <= |log| ==> log'[..k] == log[..k])
      && forall k :: 0 <= k < |log'| ==> Right(kit, m, log', k)
  {
    var log' := log + [Entry(op, None)];
    forall k | 0 <= k <= |log| ensures log'[..k] == log[..k] {
    }
    forall k | 0 <= k < |log'| ensures Right(kit, m, log', k) {
      assert k < |log| ==> Right(kit, m, log, k);
    }
  }

  /** The lock hardly moves: nobody gets in. */
  lemma WaitsKeeps(ver: Version, kit: Kit, m: H.Image, w: World,
          e: Event, w': World)
    requires WInv(ver, kit, m, w) && Moves(ver, w, e, w') && !w'.s.t[e.i].Inside?
    ensures WInv(ver, kit, m, w')
  {
    hide Inv, Makes, H.Answer, MakesAll, Ops, Right, N, Pending;
    InvStep(ver, w.s, e, w'.s);
    forall j | 0 <= j < |w'.s.t| && w'.s.t[j].Inside?
      ensures j != e.i && Working(kit, m, w', w'.jobs[j], w'.s.t[j].kind)
    {
      assert Working(kit, m, w, w.jobs[j], w.s.t[j].kind);
    }
    forall k: nat | Pending(w, k) ensures Pending(w', k) {
      StillPending(w, w', k);
    }
  }

  /** Someone gets in: what it and the others inside work on. */
  lemma EntersWorking(ver: Version, kit: Kit, m: H.Image, w: World,
          e: Event, w': World, j: nat)
    requires WInv(ver, kit, m, w) && Inv(ver, w'.s) && Moves(ver, w, e, w') && w'.s.t[e.i].Inside?
    requires j < |w'.s.t| && w'.s.t[j].Inside?
    ensures Working(kit, m, w', w'.jobs[j], w'.s.t[j].kind)
    ensures j != e.i ==> w'.jobs[j].at < w'.jobs[e.i].at
  {
    hide Inv, H.Answer, Makes, MakesAll, Ops, Right, N, Pending;
    Alone(ver, w'.s, e.i);
    Alone(ver, w'.s, j);
    LogOneMore(kit, m, w.log, w'.jobs[e.i].op);
    if j != e.i {
      assert Working(kit, m, w, w.jobs[j], w.s.t[j].kind);
    }
  }

  lemma SearchStays(kit: Kit, m: H.Image, op: H.Op)
    requires op.Search?
    ensures Makes(kit, m, op) == m
  {
    hide LowerBound;
  }

  lemma EntersKeeps(ver: Version, kit: Kit, m: H.Image, w: World,
          e: Event, w': World)
    requires WInv(ver, kit, m, w) && Moves(ver, w, e, w') && w'.s.t[e.i].Inside?
    ensures WInv(ver, kit, m, w')
  {
    hide Inv, H.Answer, Makes, MakesAll, Ops, Right, N, Pending, Working;
    InvStep(ver, w.s, e, w'.s);
    forall j: nat | j < |w'.s.t| && w'.s.t[j].Inside?
      ensures Working(kit, m, w', w'.jobs[j], w'.s.t[j].kind)
      ensures j != e.i ==> w'.jobs[j].at < w'.jobs[e.i].at
    {
      EntersWorking(ver, kit, m, w, e, w', j);
    }
    Alone(ver, w'.s, e.i);
    LogOneMore(kit, m, w.log, w'.jobs[e.i].op);
    AfterOneMore(kit, m, w.log, Entry(w'.jobs[e.i].op, None));
    if w'.jobs[e.i].op.Search? {
      SearchStays(kit, MakesAll(kit, m, Ops(w.log)), w'.jobs[e.i].op);
    }
    forall k: nat | k < |w'.log| && w'.log[k].answer == None ensures Pending(w', k) {
      if k < |w.log| {
        StillPending(w, w', k);
      } else {
        IsPending(w', e.i);
      }
    }
  }

  lemma WritesKeeps(ver: Version, kit: Kit, m: H.Image, w: World,
          i: nat, w': World)
    requires WInv(ver, kit, m, w) && Writes(w, i, w')
    ensures WInv(ver, kit, m, w')
  {
    hide Inv, Makes, H.Answer, MakesAll, Ops, Right;
    Alone(ver, w.s, i);
    assert Working(kit, m, w, w.jobs[i], W);
    forall k: nat | k < |w'.log| && w'.log[k].answer == None ensures Pending(w', k) {
      StillPending(w, w', k);
    }
  }

  // ----- the theorem

  lemma {:induction false} RunKeeps(ver: Version, kit: Kit, m: H.Image,
          run: seq<World>, events: seq<Event>, n: nat)
    requires IsHistory(ver, kit, m, run, events) && n < |run|
    ensures WInv(ver, kit, m, run[n])
  {
    hide WInv, Moves, Finishes, Writes;
    if n == 0 {
      RunStarts(ver, kit, m, run[0]);
    } else {
      RunKeeps(ver, kit, m, run, events, n - 1);
      var w, e, w' := run[n - 1], events[n - 1], run[n - 1 + 1];
      assert Acts(ver, kit, w, e, w');
      if Finishes(ver, kit, w, e, w') {
        FinishesKeeps(ver, kit, m, w, e, w');
      } else if Writes(w, e.i, w') {
        WritesKeeps(ver, kit, m, w, e.i, w');
      } else {
        MovesKeeps(ver, kit, m, w, e, w');
      }
    }
  }

  lemma MovesKeeps(ver: Version, kit: Kit, m: H.Image, w: World,
          e: Event, w': World)
    requires WInv(ver, kit, m, w) && Moves(ver, w, e, w')
    ensures WInv(ver, kit, m, w')
  {
    assert e.i < |w'.s.t|;
    hide WInv, Moves;
    if w'.s.t[e.i].Inside? {
      EntersKeeps(ver, kit, m, w, e, w');
    } else {
      WaitsKeeps(ver, kit, m, w, e, w');
    }
  }

  lemma RunStarts(ver: Version, kit: Kit, m: H.Image, w: World)
    requires w.s.l == INITIAL && |w.jobs| == |w.s.t| && forall j :: 0 <= j < |w.s.t| ==> w.s.t[j] == Idle
    requires w.d == Some(m) && w.log == []
    ensures WInv(ver, kit, m, w)
  {
    InvInit(ver, w.s.t);
  }

  lemma {:induction false} AnswerAt(kit: Kit, m: H.Image, ops: seq<H.Op>, k: nat)
    requires k < |ops|
    ensures |H.Answers(kit.cmp, m.s, ops)| == |ops|
    ensures H.Answers(kit.cmp, m.s, ops)[k] == H.Answer(kit.cmp, MakesAll(kit, m, ops[..k]).s, ops[k])
    decreases k
  {
    hide H.After, H.Answer, H.AfterImage;
    H.ItemsAfter(kit.cmp, kit.max, kit.words, m, ops[0]);
    H.RunCounts(kit.cmp, m.s, ops);
    if k > 0 {
      AnswerAt(kit, Makes(kit, m, ops[0]), ops[1..], k - 1);
      assert ops[..k][1..] == ops[1..][..k - 1] && ops[..k][0] == ops[0];
    }
  }

  /** However the threads interleave, each call answers what it would if the calls had been made
      one after the other in the order in which they got the lock. */
  lemma Linear(ver: Version, kit: Kit, m: H.Image, run: seq<World>, events: seq<Event>, n: nat, k: nat)
    requires IsHistory(ver, kit, m, run, events) && n < |run| && k < |run[n].log| && run[n].log[k].answer.Some?
    ensures |H.Answers(kit.cmp, m.s, Ops(run[n].log))| == |run[n].log|
    ensures run[n].log[k].answer.value == H.Answers(kit.cmp, m.s, Ops(run[n].log))[k]
  {
    RunKeeps(ver, kit, m, run, events, n);
    AnswerAt(kit, m, Ops(run[n].log), k);
    assert Right(kit, m, run[n].log, k);
    assert Ops(run[n].log)[..k] == Ops(run[n].log[..k]);
  }

  /** Whenever no thread is inside for writing, the memory holds the list that those calls leave
      behind, with its items and heights; and once nobody is inside every call has been answered. */
  lemma LinearImage(ver: Version, kit: Kit, m: H.Image, run: seq<World>, events: seq<Event>, n: nat)
    requires IsHistory(ver, kit, m, run, events) && n < |run|
    requires forall i :: 0 <= i < |run[n].s.t| ==> run[n].s.t[i] != Inside(W)
    ensures run[n].d == Some(MakesAll(kit, m, Ops(run[n].log)))
    ensures (forall i :: 0 <= i < |run[n].s.t| ==> !run[n].s.t[i].Inside?)
      ==> forall k :: 0 <= k < |run[n].log| ==> run[n].log[k].answer.Some?
  {
    RunKeeps(ver, kit, m, run, events, n);
    CountNone(run[n].s.t, {Inside(W)});
  }

  /** Whoever is inside for reading sees a whole list: the one that the calls so far have made. */
  lemma ReadersSeeGood(ver: Version, kit: Kit, m: H.Image, run: seq<World>, events: seq<Event>, n: nat, i: nat)
    requires IsHistory(ver, kit, m, run, events) && n < |run|
    requires i < |run[n].s.t| && run[n].s.t[i] == Inside(R)
    ensures run[n].d == Some(MakesAll(kit, m, Ops(run[n].log)))
  {
    RunKeeps(ver, kit, m, run, events, n);
    WriterCounts(ver, run[n].s, i);
  }

  /** And it sees the same for as long as it stays. */
  lemma {:induction false} ReadersSeeSame(ver: Version, kit: Kit, m: H.Image, run: seq<World>, events: seq<Event>,
          n: nat, n': nat, i: nat)
    requires IsHistory(ver, kit, m, run, events) && n <= n' < |run|
    requires forall h :: n <= h <= n' ==> i < |run[h].s.t| && run[h].s.t[i] == Inside(R)
    ensures run[n'].d == run[n].d
    decreases n'
  {
    hide IsHistory;
    if n < n' {
      ReadersSeeSame(ver, kit, m, run, events, n, n' - 1, i);
      SameWhileReading(ver, kit, m, run, events, n' - 1, i);
    }
  }

  lemma SameWhileReading(ver: Version, kit: Kit, m: H.Image, run: seq<World>, events: seq<Event>, n: nat, i: nat)
    requires IsHistory(ver, kit, m, run, events) && n + 1 < |run|
    requires i < |run[n].s.t| && run[n].s.t[i] == Inside(R)
    ensures run[n + 1].d == run[n].d
  {
    var w, e, w' := run[n], events[n], run[n + 1];
    assert Acts(ver, kit, w, e, w');
    RunKeeps(ver, kit, m, run, events, n);
    hide IsHistory, Step, Inv, Sequential;
    WriterCounts(ver, w.s, i);
    WriterCounts(ver, w.s, e.i);
  }
}
