/**
 The two reader/writer locks of the library.  What a thread does between taking and releasing
 the mutex is one atomic section; waiting on a condition variable ends a section, and a new
 one starts when the thread has been woken, by a signal, a broadcast or spuriously.
 */
module Locks {
  import opened Threads

  /** The lock of rwlock.c, and the one of the macros that favour writers. */
  datatype Version = V1 | V2

  datatype Lock = Lock(rActive: int, wActive: int, rWait: int, wWait: int)

  const INITIAL: Lock := Lock(0, 0, 0, 0)

  // ----- the sections, as functions

  /** The guard of the waiting loop. */
  predicate Blocked(ver: Version, l: Lock, k: Kind) {
    if k == W then l.wActive != 0 || (if ver == V1 then l.rActive > 0 else l.rActive != 0)
    else l.wActive != 0 || (ver == V2 && l.wWait != 0)
  }

  function Admit(l: Lock, k: Kind): Lock {
    if k == R then l.(rActive := l.rActive + 1) else l.(wActive := 1)
  }

  function Queue(l: Lock, k: Kind, d: int): Lock {
    if k == R then l.(rWait := l.rWait + d) else l.(wWait := l.wWait + d)
  }

  /** Asking for the lock; the flag says that the thread goes to sleep. */
  function Ask(ver: Version, l: Lock, k: Kind): (Lock, bool) {
    if Blocked(ver, l, k) then (Queue(l, k, 1), true) else (Admit(l, k), false)
  }

  /** Back from sleep. */
  function Return(ver: Version, l: Lock, k: Kind): (Lock, bool) {
    if Blocked(ver, l, k) then (l, true) else (Admit(Queue(l, k, -1), k), false)
  }

  /** Asking without waiting; the flag says that the lock is busy. */
  function Attempt(l: Lock, k: Kind): (Lock, bool) {
    if Blocked(V1, l, k) then (l, true) else (Admit(l, k), false)
  }

  /** Giving the lock back, and whom to wake. */
  function Release(ver: Version, l: Lock, k: Kind): (Lock, Wakeup) {
    var l' := if k == R then l.(rActive := l.rActive - 1) else l.(wActive := 0);
    var call :=
      match (ver, k)
      case (V1, R) => if l'.rActive == 0 && l'.wWait > 0 then Signal(W) else Nothing
      case (V1, W) => if l'.rWait > 0 then Broadcast(R) else if l'.wWait > 0 then Signal(W) else Nothing
      case (V2, R) => if l'.wWait != 0 then Signal(W) else Nothing
      case (V2, W) => if l'.wWait != 0 then Signal(W) else if l'.rWait != 0 then Broadcast(R) else Nothing;
    (l', call)
  }

  // ----- the sections, as code

  /** What a section answers: it may find that the lock has not been set up. */
  datatype Grant = Granted | Sleeps | Busy | Invalid

  class RwLock {
    var valid: bool
    var r_active: int
    var w_active: int
    var r_wait: int
    var w_wait: int

    function Now(): Lock
      reads this
    {
      Lock(r_active, w_active, r_wait, w_wait)
    }

    constructor ()
      ensures valid && Now() == INITIAL
    {
      valid := true;
      r_active, w_active, r_wait, w_wait := 0, 0, 0, 0;
    }

    /** Refuses while anyone holds the lock or waits for it: in every state that the threads can
        reach, exactly if some thread is not idle. */
    method Destroy() returns (answer: Grant)
      modifies this`valid
      ensures old(valid) ==> forall ver, s :: Inv(ver, s) && s.l == old(Now()) ==>
                (answer == Busy <==> exists i :: 0 <= i < |s.t| && s.t[i] != Idle)
      ensures valid == (old(valid) && answer == Busy) && (answer == Invalid <==> !old(valid))
      ensures old(valid) ==>
                answer == if r_active > 0 || w_active != 0 || r_wait != 0 || w_wait != 0 then Busy else Granted
    {
      forall ver, s | Inv(ver, s) && s.l == Now()
        ensures r_active > 0 || w_active != 0 || r_wait != 0 || w_wait != 0
           <==> exists i :: 0 <= i < |s.t| && s.t[i] != Idle
      {
        BusyIff(ver, s);
      }
      if !valid {
        return Invalid;
      }
      if r_active > 0 || w_active != 0 {
        return Busy;
      }
      if r_wait != 0 || w_wait != 0 {
        return Busy;
      }
      valid := false;
      answer := Granted;
    }

    method ReadLock() returns (answer: Grant)
      modifies this`r_active, this`r_wait
      ensures if !valid then answer == Invalid && Now() == old(Now())
              else answer == (if Ask(V1, old(Now()), R).1 then Sleeps else Granted) && Now() == Ask(V1, old(Now()), R).0
    {
      if !valid {
        return Invalid;
      }
      if w_active != 0 {
        r_wait := r_wait + 1;
        return Sleeps;
      }
      r_active := r_active + 1;
      answer := Granted;
    }

    method ReadLockWoken() returns (answer: Grant)
      modifies this`r_active, this`r_wait
      ensures answer == (if Return(V1, old(Now()), R).1 then Sleeps else Granted)
        && Now() == Return(V1, old(Now()), R).0
    {
      if w_active != 0 {
        return Sleeps;
      }
      r_wait := r_wait - 1;
      r_active := r_active + 1;
      answer := Granted;
    }

    method ReadTryLock() returns (answer: Grant)
      modifies this`r_active
      ensures if !valid then answer == Invalid && Now() == old(Now())
              else answer == (if Attempt(old(Now()), R).1 then Busy else Granted) && Now() == Attempt(old(Now()), R).0
    {
      if !valid {
        return Invalid;
      }
      if w_active != 0 {
        answer := Busy;
      } else {
        answer := Granted;
        r_active := r_active + 1;
      }
    }

    method ReadUnlock() returns (answer: Grant, call: Wakeup)
      modifies this`r_active
      ensures if !valid then answer == Invalid && call == Nothing && Now() == old(Now())
              else answer == Granted && (Now(), call) == Release(V1, old(Now()), R)
    {
      call := Nothing;
      if !valid {
        return Invalid, call;
      }
      r_active := r_active - 1;
      if r_active == 0 && w_wait > 0 {
        call := Signal(W);
      }
      answer := Granted;
    }

    method WriteLock() returns (answer: Grant)
      modifies this`w_active, this`w_wait
      ensures if !valid then answer == Invalid && Now() == old(Now())
              else answer == (if Ask(V1, old(Now()), W).1 then Sleeps else Granted) && Now() == Ask(V1, old(Now()), W).0
    {
      if !valid {
        return Invalid;
      }
      if w_active != 0 || r_active > 0 {
        w_wait := w_wait + 1;
        return Sleeps;
      }
      w_active := 1;
      answer := Granted;
    }

    method WriteLockWoken() returns (answer: Grant)
      modifies this`w_active, this`w_wait
      ensures answer == (if Return(V1, old(Now()), W).1 then Sleeps else Granted)
        && Now() == Return(V1, old(Now()), W).0
    {
      if w_active != 0 || r_active > 0 {
        return Sleeps;
      }
      w_wait := w_wait - 1;
      w_active := 1;
      answer := Granted;
    }

    method WriteTryLock() returns (answer: Grant)
      modifies this`w_active
      ensures if !valid then answer == Invalid && Now() == old(Now())
              else answer == (if Attempt(old(Now()), W).1 then Busy else Granted) && Now() == Attempt(old(Now()), W).0
    {
      if !valid {
        return Invalid;
      }
      if w_active != 0 || r_active > 0 {
        answer := Busy;
      } else {
        answer := Granted;
        w_active := 1;
      }
    }

    method WriteUnlock() returns (answer: Grant, call: Wakeup)
      modifies this`w_active
      ensures if !valid then answer == Invalid && call == Nothing && Now() == old(Now())
              else answer == Granted && (Now(), call) == Release(V1, old(Now()), W)
    {
      call := Nothing;
      if !valid {
        return Invalid, call;
      }
      w_active := 0;
      if r_wait > 0 {
        call := Broadcast(R);
      } else if w_wait > 0 {
        call := Signal(W);
      }
      answer := Granted;
    }
  }

  /** The fields a list has for the other lock. */
  class RwMacros {
    var readers: int
    var writers: int
    var read_waiters: int
    var write_waiters: int

    function Now(): Lock
      reads this
    {
      Lock(readers, writers, read_waiters, write_waiters)
    }

    constructor ()
      ensures Now() == INITIAL
    {
      read_waiters, write_waiters, readers, writers := 0, 0, 0, 0;
    }

    method ReaderEnter() returns (sleeps: bool)
      modifies this`readers, this`read_waiters
      ensures (Now(), sleeps) == Ask(V2, old(Now()), R)
    {
      if writers != 0 || write_waiters != 0 {
        read_waiters := read_waiters + 1;
        return true;
      }
      readers := readers + 1;
      sleeps := false;
    }

    method ReaderEnterWoken() returns (sleeps: bool)
      modifies this`readers, this`read_waiters
      ensures (Now(), sleeps) == Return(V2, old(Now()), R)
    {
      if writers != 0 || write_waiters != 0 {
        return true;
      }
      read_waiters := read_waiters - 1;
      readers := readers + 1;
      sleeps := false;
    }

    method ReaderExit() returns (call: Wakeup)
      modifies this`readers
      ensures (Now(), call) == Release(V2, old(Now()), R)
    {
      readers := readers - 1;
      call := Nothing;
      if write_waiters != 0 {
        call := Signal(W);
      }
    }

    method WriterEnter() returns (sleeps: bool)
      modifies this`writers, this`write_waiters
      ensures (Now(), sleeps) == Ask(V2, old(Now()), W)
    {
      if readers != 0 || writers != 0 {
        write_waiters := write_waiters + 1;
        return true;
      }
      writers := 1;
      sleeps := false;
    }

    method WriterEnterWoken() returns (sleeps: bool)
      modifies this`writers, this`write_waiters
      ensures (Now(), sleeps) == Return(V2, old(Now()), W)
    {
      if readers != 0 || writers != 0 {
        return true;
      }
      write_waiters := write_waiters - 1;
      writers := 1;
      sleeps := false;
    }

    method WriterExit() returns (call: Wakeup)
      modifies this`writers
      ensures (Now(), call) == Release(V2, old(Now()), W)
    {
      writers := 0;
      call := Nothing;
      if write_waiters != 0 {
        call := Signal(W);
      } else if read_waiters != 0 {
        call := Broadcast(R);
      }
    }
  }

  // ----- the threads and the lock

  datatype System = System(l: Lock, t: seq<Phase>)

  /** What thread `i` does, or what happens to it. */
  datatype Event =
    | Enter(i: nat, k: Kind)
    | Try(i: nat, k: Kind)
    | Resume(i: nat)
    | Leave(i: nat)
    | Spurious(i: nat)

  ghost predicate Step(ver: Version, s: System, e: Event, s': System) {
    && e.i < |s.t|
    && match e
       case Enter(i, k) =>
         s.t[i] == Idle && var (l, sleeps) := Ask(ver, s.l, k);
         s' == System(l, s.t[i := if sleeps then Asleep(k) else Inside(k)])
       case Try(i, k) =>
         ver == V1 && s.t[i] == Idle && var (l, busy) := Attempt(s.l, k);
         s' == System(l, s.t[i := if busy then Idle else Inside(k)])
       case Resume(i) =>
         s.t[i].Woken? && var (l, sleeps) := Return(ver, s.l, s.t[i].kind);
         s' == System(l, s.t[i := if sleeps then Asleep(s.t[i].kind) else Inside(s.t[i].kind)])
       case Leave(i) =>
         s.t[i].Inside? && var (l, call) := Release(ver, s.l, s.t[i].kind);
         s'.l == l && Rouses(s.t[i := Idle], call, s'.t)
       case Spurious(i) =>
         s.t[i].Asleep? && s' == System(s.l, s.t[i := Woken(s.t[i].kind)])
  }

  /** The counters count, and a writer is alone. */
  ghost predicate Exact(s: System) {
    && s.l.rActive == N(s.t, Inside(R)) && s.l.wActive == N(s.t, Inside(W))
    && s.l.rWait == N(s.t, Asleep(R)) + N(s.t, Woken(R))
    && s.l.wWait == N(s.t, Asleep(W)) + N(s.t, Woken(W))
    && s.l.wActive <= 1 && (s.l.wActive == 1 ==> s.l.rActive == 0)
  }

  /** Whoever sleeps will be woken: there is someone whose next section sees to it. */
  ghost predicate Cared(ver: Version, s: System) {
    && (N(s.t, Asleep(R)) > 0 ==> s.l.wActive == 1 || (ver == V2 && s.l.wWait > 0))
    && (N(s.t, Asleep(W)) > 0 ==>
          || s.l.rActive > 0 || s.l.wActive == 1
          || N(s.t, Woken(W)) > 0 || (ver == V1 && N(s.t, Woken(R)) > 0))
  }

  ghost predicate Inv(ver: Version, s: System) {
    Exact(s) && Cared(ver, s)
  }

  lemma InvInit(ver: Version, t: seq<Phase>)
    requires forall j :: 0 <= j < |t| ==> t[j] == Idle
    ensures Inv(ver, System(INITIAL, t))
  {
    forall p | p != Idle ensures N(t, p) == 0 {
      CountNone(t, {p});
    }
  }

  lemma InvStep(ver: Version, s: System, e: Event, s': System)
    requires Inv(ver, s) && Step(ver, s, e, s')
    ensures Inv(ver, s') && |s'.t| == |s.t|
  {
    hide Inv, N, Rouses;
    if e.Leave? {
      LeaveKeeps(ver, s, e.i, s');
    } else {
      MoveKeeps(ver, s, e, s');
    }
  }

  lemma MoveKeeps(ver: Version, s: System, e: Event, s': System)
    requires Inv(ver, s) && Step(ver, s, e, s') && !e.Leave?
    ensures Inv(ver, s') && |s'.t| == |s.t|
  {
    hide N, Rouses;
    NMove(s.t, e.i, s'.t[e.i]);
  }

  lemma LeaveKeeps(ver: Version, s: System, i: nat, s': System)
    requires Inv(ver, s) && Step(ver, s, Leave(i), s')
    ensures Inv(ver, s') && |s'.t| == |s.t|
  {
    hide N, Rouses;
    var t, call := s.t[i := Idle], Release(ver, s.l, s.t[i].kind).1;
    NMove(s.t, i, Idle);
    RousedCounts(t, call, s'.t, R);
    RousedCounts(t, call, s'.t, W);
    RousedSome(t, call, s'.t);
  }

  // ----- runs

  /** A run from the moment the lock is set up and no thread has used it. */
  ghost predicate IsRun(ver: Version, run: seq<System>, events: seq<Event>) {
    && |run| == |events| + 1 && run[0].l == INITIAL
    && (forall j :: 0 <= j < |run[0].t| ==> run[0].t[j] == Idle)
    && Steps(ver, run, events)
  }

  ghost predicate Steps(ver: Version, run: seq<System>, events: seq<Event>) {
    |run| == |events| + 1 && forall n :: 0 <= n < |events| ==> Step(ver, run[n], events[n], run[n + 1])
  }

  /** The invariant holds throughout every run of any number of threads. */
  lemma {:induction false} RunInv(ver: Version, run: seq<System>, events: seq<Event>, n: nat)
    requires IsRun(ver, run, events) && n < |run|
    ensures Inv(ver, run[n]) && |run[n].t| == |run[0].t|
  {
    if n == 0 {
      InvInit(ver, run[0].t);
    } else {
      RunInv(ver, run, events, n - 1);
      assert Step(ver, run[n - 1], events[n - 1], run[n - 1 + 1]);
      InvStep(ver, run[n - 1], events[n - 1], run[n]);
    }
  }

  /** Nobody is inside together with a writer. */
  lemma Exclusion(ver: Version, s: System, i: nat, j: nat)
    requires Inv(ver, s) && i < |s.t| && j < |s.t| && i != j && s.t[i] == Inside(W)
    ensures !s.t[j].Inside?
  {
    InPhase(s.t, i);
    InPhase(s.t, j);
    NoOther(s.t, {Inside(W)}, i);
    assert s.t[j] !in {Inside(W)};
    assert s.t[j].Inside? ==> s.t[j].kind == R || s.t[j].kind == W;
  }

  lemma WriterCounts(ver: Version, s: System, i: nat)
    requires Inv(ver, s)
    ensures i < |s.t| && s.t[i] == Inside(W) ==> s.l.wActive == 1
    ensures i < |s.t| && s.t[i] == Inside(R) ==> s.l.wActive == 0
  {
    if i < |s.t| {
      InPhase(s.t, i);
    }
  }

  /** No wakeup is lost: when the lock is free and someone waits for it, some thread has been
      woken that will get it. */
  lemma NoLostWakeup(ver: Version, s: System, i: nat) returns (j: nat)
    requires Inv(ver, s) && i < |s.t| && (s.t[i].Asleep? || s.t[i].Woken?)
    requires forall h :: 0 <= h < |s.t| ==> !s.t[h].Inside?
    ensures j < |s.t| && s.t[j].Woken? && !Blocked(ver, s.l, s.t[j].kind)
    ensures exists s' :: Step(ver, s, Resume(j), s') && s'.t[j] == Inside(s.t[j].kind)
  {
    InPhase(s.t, i);
    NobodyInside(s.t, R);
    NobodyInside(s.t, W);
    assert s.t[i].kind == R || s.t[i].kind == W;
    hide N;
    if N(s.t, Woken(W)) > 0 {
      j := Someone(s.t, Woken(W));
    } else {
      j := Someone(s.t, Woken(R));
    }
    var s' := System(Admit(Queue(s.l, s.t[j].kind, -1), s.t[j].kind), s.t[j := Inside(s.t[j].kind)]);
    assert Step(ver, s, Resume(j), s');
  }

  lemma NobodyInside(t: seq<Phase>, k: Kind)
    requires forall h :: 0 <= h < |t| ==> !t[h].Inside?
    ensures N(t, Inside(k)) == 0
  {
    CountNone(t, {Inside(k)});
  }

  /** The check before destruction finds the lock busy exactly when some thread is using it or
      waiting for it. */
  lemma BusyIff(ver: Version, s: System)
    requires Inv(ver, s)
    ensures s.l.rActive > 0 || s.l.wActive != 0 || s.l.rWait != 0 || s.l.wWait != 0
       <==> exists i :: 0 <= i < |s.t| && s.t[i] != Idle
  {
    if i :| 0 <= i < |s.t| && s.t[i] != Idle {
      InPhase(s.t, i);
      assert s.t[i].kind == R || s.t[i].kind == W;
    } else {
      forall p | p != Idle ensures N(s.t, p) == 0 {
        CountNone(s.t, {p});
      }
    }
  }

  // ----- who gets the lock, and who is woken, by the phases of the threads

  ghost predicate SomeoneIs(t: seq<Phase>, p: Phase) {
    exists j :: 0 <= j < |t| && t[j] == p
  }

  ghost predicate SomeoneWaits(t: seq<Phase>, k: Kind) {
    SomeoneIs(t, Asleep(k)) || SomeoneIs(t, Woken(k))
  }

  lemma CountsSomeone(t: seq<Phase>, p: Phase)
    ensures N(t, p) > 0 <==> SomeoneIs(t, p)
  {
    CountNone(t, {p});
  }

  /** The counters by the phases. */
  lemma CountersTell(s: System)
    requires Exact(s)
    ensures s.l.rActive >= 0 && s.l.rWait >= 0 && s.l.wWait >= 0
    ensures s.l.rActive > 0 <==> SomeoneIs(s.t, Inside(R))
    ensures s.l.wActive == if SomeoneIs(s.t, Inside(W)) then 1 else 0
    ensures s.l.rWait > 0 <==> SomeoneWaits(s.t, R)
    ensures s.l.wWait > 0 <==> SomeoneWaits(s.t, W)
  {
    hide N;
    CountsSomeone(s.t, Inside(R));
    CountsSomeone(s.t, Inside(W));
    CountsSomeone(s.t, Asleep(R));
    CountsSomeone(s.t, Woken(R));
    CountsSomeone(s.t, Asleep(W));
    CountsSomeone(s.t, Woken(W));
  }

  /** A thread that asks, with or without waiting, or comes back from a wait gets in exactly if: a
      writer, nobody is inside; a reader, no writer is inside and, at the second lock, none waits.
      Otherwise it sleeps, or is sent away if it would not wait.  Nobody else is affected. */
  lemma GrantIff(ver: Version, s: System, e: Event, s': System, k: Kind)
    requires Inv(ver, s) && Step(ver, s, e, s') && (e.Enter? || e.Try? || e.Resume?)
    requires k == if e.Resume? then s.t[e.i].kind else e.k
    ensures |s'.t| == |s.t|
    ensures s'.t[e.i] == Inside(k) <==>
              if k == W then !SomeoneIs(s.t, Inside(R)) && !SomeoneIs(s.t, Inside(W))
              else !SomeoneIs(s.t, Inside(W)) && (ver == V2 ==> !SomeoneWaits(s.t, W))
    ensures s'.t[e.i] == Inside(k) || s'.t[e.i] == if e.Try? then Idle else Asleep(k)
    ensures forall j :: 0 <= j < |s.t| && j != e.i ==> s'.t[j] == s.t[j]
  {
    hide Cared, N;
    CountersTell(s);
    hide Exact, SomeoneIs, SomeoneWaits;
  }

  /** Whom a thread wakes that leaves.  At the first lock: the last reader to leave wakes a writer, if
      one waits; a writer all readers, if any waits, and else a writer.  At the second: whoever leaves
      wakes a writer, if one waits, and else a writer wakes all readers.  No call wakes all writers. */
  lemma LeaveCalls(ver: Version, s: System, i: nat)
    requires Inv(ver, s) && i < |s.t| && s.t[i].Inside?
    ensures var call := Release(ver, s.l, s.t[i].kind).1;
      match (ver, s.t[i].kind)
      case (V1, R) =>
        var last := !SomeoneIs(s.t[i := Idle], Inside(R));
        call == if last && SomeoneWaits(s.t, W) then Signal(W) else Nothing
      case (V1, W) =>
        call == if SomeoneWaits(s.t, R) then Broadcast(R) else if SomeoneWaits(s.t, W) then Signal(W) else Nothing
      case (V2, R) => call == if SomeoneWaits(s.t, W) then Signal(W) else Nothing
      case (V2, W) =>
        call == if SomeoneWaits(s.t, W) then Signal(W) else if SomeoneWaits(s.t, R) then Broadcast(R) else Nothing
  {
    hide Cared, N;
    CountersTell(s);
    NMove(s.t, i, Idle);
    CountsSomeone(s.t[i := Idle], Inside(R));
    hide SomeoneIs, SomeoneWaits;
  }

  // ----- every thread gets through

  /** The threads that a call wakes if it wakes all it can. */
  function WakeAll(t: seq<Phase>, call: Wakeup): (u: seq<Phase>)
    ensures |u| == |t|
    ensures forall j :: 0 <= j < |t| ==> u[j] == if call != Nothing
      && t[j] == Asleep(call.kind) then Woken(call.kind) else t[j]
  {
    seq(|t|, j requires 0 <= j < |t| => if call != Nothing && t[j] == Asleep(call.kind) then Woken(call.kind) else t[j])
  }

  lemma CanRouse(t: seq<Phase>, call: Wakeup)
    ensures Rouses(t, call, WakeAll(t, call))
  {
    var u := WakeAll(t, call);
    if call != Nothing {
      CountNone(u, {Asleep(call.kind)});
      CountSame(t, u, {Asleep(call.kind), Woken(call.kind)});
      WaitingSplits(t, call.kind);
      WaitingSplits(u, call.kind);
    }
  }

  /** As long as some thread is not idle, one that is inside can leave, or one that has been woken
      can run. */
  lemma Progress(ver: Version, s: System, i: nat) returns (e: Event, s': System)
    requires Inv(ver, s) && i < |s.t| && s.t[i] != Idle
    ensures (e.Resume? || e.Leave?) && Step(ver, s, e, s')
  {
    if j :| 0 <= j < |s.t| && s.t[j].Inside? {
      var (l, call) := Release(ver, s.l, s.t[j].kind);
      e := Leave(j);
      CanRouse(s.t[j := Idle], call);
      s' := System(l, WakeAll(s.t[j := Idle], call));
    } else {
      var j := NoLostWakeup(ver, s, i);
      e := Resume(j);
      s' :| Step(ver, s, e, s');
    }
  }

  /** Without arrivals and spurious wakeups, every run is finite, of a length that the phases
      of the threads bound; and it can only end with all of them idle. */
  lemma {:induction false} Drain(ver: Version, run: seq<System>, events: seq<Event>)
    requires Steps(ver, run, events) && Inv(ver, run[0])
    requires forall n :: 0 <= n < |events| ==> events[n].Resume? || events[n].Leave?
    ensures |events| <= Rank(run[0].t)
    ensures Inv(ver, run[|events|])
    ensures (forall e: Event, s' :: (e.Resume? || e.Leave?) ==> !Step(ver, run[|events|], e, s'))
      ==> forall i :: 0 <= i < |run[|events|].t| ==> run[|events|].t[i] == Idle
    decreases |events|
  {
    if |events| == 0 {
      AllDone(ver, run[0]);
    } else {
      assert Step(ver, run[0], events[0], run[0 + 1]);
      InvStep(ver, run[0], events[0], run[1]);
      StepDrains(ver, run[0], events[0], run[1]);
      forall n | 0 <= n < |events[1..]| ensures Step(ver, run[1..][n], events[1..][n], run[1..][n + 1]) {
        assert Step(ver, run[n + 1], events[n + 1], run[n + 1 + 1]);
      }
      hide Step, Rank, Inv;
      Drain(ver, run[1..], events[1..]);
    }
  }

  lemma AllDone(ver: Version, s: System)
    requires Inv(ver, s)
    ensures (forall e: Event, s' :: (e.Resume? || e.Leave?) ==> !Step(ver, s, e, s'))
      ==> forall i :: 0 <= i < |s.t| ==> s.t[i] == Idle
  {
    hide Step, Inv;
    if i :| 0 <= i < |s.t| && s.t[i] != Idle {
      var e, s' := Progress(ver, s, i);
    }
  }

  lemma StepDrains(ver: Version, s: System, e: Event, s': System)
    requires Step(ver, s, e, s') && (e.Resume? || e.Leave?)
    ensures Rank(s'.t) < Rank(s.t)
  {
    hide Rank, Rouses;
    var call := if e.Leave? then Release(ver, s.l, s.t[e.i].kind).1 else Nothing;
    DrainLowers(s.t, e.i, call, s'.t);
  }

  // ----- writers first, or not

  /** The second lock admits no reader while a writer waits. */
  lemma AdmitsNoReader(s: System, e: Event, s': System, w: nat, i: nat)
    requires Inv(V2, s) && Step(V2, s, e, s') && w < |s.t| && i < |s'.t|
    requires s.t[w] == Asleep(W) || s.t[w] == Woken(W)
    requires s'.t[i] == Inside(R)
    ensures i < |s.t| && s.t[i] == Inside(R)
  {
    InPhase(s.t, w);
    if e.Leave? {
      RousedSome(s.t[e.i := Idle], Release(V2, s.l, s.t[e.i].kind).1, s'.t);
    }
  }

  /** So from the moment a writer starts to wait until it gets in, readers only leave. */
  lemma {:induction false} ReadersOnlyLeave(run: seq<System>, events: seq<Event>, w: nat, i: nat)
    requires Steps(V2, run, events) && Inv(V2, run[0])
    requires forall n :: 0 <= n < |events| ==> w < |run[n].t| && (run[n].t[w] == Asleep(W) || run[n].t[w] == Woken(W))
    requires i < |run[|events|].t| && run[|events|].t[i] == Inside(R)
    ensures forall n :: 0 <= n <= |events| ==> i < |run[n].t| && run[n].t[i] == Inside(R)
    decreases |events|
  {
    if |events| > 0 {
      assert Step(V2, run[0], events[0], run[0 + 1]);
      InvStep(V2, run[0], events[0], run[1]);
      forall n | 0 <= n < |events[1..]| ensures Step(V2, run[1..][n], events[1..][n], run[1..][n + 1]) {
        assert Step(V2, run[n + 1], events[n + 1], run[n + 1 + 1]);
      }
      ReadersOnlyLeave(run[1..], events[1..], w, i);
      assert run[1] == run[1..][0];
      AdmitsNoReader(run[0], events[0], run[1], w, i);
      forall n | 0 <= n <= |events| ensures i < |run[n].t| && run[n].t[i] == Inside(R) {
        assert n > 0 ==> run[n] == run[1..][n - 1];
      }
    }
  }

  /** The first lock does let a reader overtake a waiting writer. */
  lemma Overtakes() returns (run: seq<System>, events: seq<Event>)
    ensures IsRun(V1, run, events) && |events| == 3
    ensures |run[2].t| == |run[3].t| == 3
    ensures run[2].t[1] == Asleep(W) && run[2].t[2] == Idle && run[3].t[1] == Asleep(W) && run[3].t[2] == Inside(R)
  {
    events := [Enter(0, R), Enter(1, W), Enter(2, R)];
    run := [System(INITIAL, [Idle, Idle, Idle]),
            System(Lock(1, 0, 0, 0), [Inside(R), Idle, Idle]),
            System(Lock(1, 0, 0, 1), [Inside(R), Asleep(W), Idle]),
            System(Lock(2, 0, 0, 1), [Inside(R), Asleep(W), Inside(R)])];
    assert Step(V1, run[0], events[0], run[1]) && Step(V1, run[1], events[1], run[2])
      && Step(V1, run[2], events[2], run[3]);
  }

  /** Thread `i` is asleep in every state of a run from number `from` on. */
  ghost predicate StaysAsleep(run: seq<System>, from: nat, i: nat, k: Kind) {
    forall m :: from <= m < |run| ==> i < |run[m].t| && run[m].t[i] == Asleep(k)
  }

  /** A run that has come to the start of a cycle can go round it as often as wanted. */
  lemma {:induction false} GoRound(ver: Version, run: seq<System>, events: seq<Event>, cycle: seq<System>,
          laps: seq<Event>, from: nat, i: nat, k: Kind, n: nat)
    returns (run': seq<System>, events': seq<Event>)
    requires IsRun(ver, run, events) && Steps(ver, cycle, laps) && |laps| > 0 && from <= |events|
    requires run[|events|] == cycle[0] == cycle[|laps|]
    requires StaysAsleep(run, from, i, k) && StaysAsleep(cycle, 0, i, k)
    ensures IsRun(ver, run', events') && |events'| >= |events| + n && StaysAsleep(run', from, i, k)
    ensures events <= events'
    decreases n
  {
    hide Step;
    if n == 0 {
      return run, events;
    }
    run', events' := run + cycle[1..], events + laps;
    assert run'[|events'|] == cycle[|laps|];
    forall m | 0 <= m < |events'| ensures Step(ver, run'[m], events'[m], run'[m + 1]) {
      if m < |events| {
        assert Step(ver, run[m], events[m], run[m + 1]);
      } else {
        var j := m - |events|;
        assert Step(ver, cycle[j], laps[j], cycle[j + 1]);
        assert run'[m] == cycle[j] && run'[m + 1] == cycle[j + 1];
      }
    }
    run', events' := GoRound(ver, run', events', cycle, laps, from, i, k, n - 1);
  }

  /** A writer starves at the first lock: two readers whose visits overlap can keep it asleep for
      as long as they like. */
  lemma WriterStarves(n: nat) returns (run: seq<System>, events: seq<Event>)
    ensures IsRun(V1, run, events) && |events| >= 2 + n && events[1] == Enter(1, W)
    ensures StaysAsleep(run, 2, 1, W)
  {
    var both := System(Lock(2, 0, 0, 1), [Inside(R), Asleep(W), Inside(R)]);
    var first := System(Lock(1, 0, 0, 1), [Inside(R), Asleep(W), Idle]);
    var second := System(Lock(1, 0, 0, 1), [Idle, Asleep(W), Inside(R)]);
    events := [Enter(0, R), Enter(1, W)];
    run := [System(INITIAL, [Idle, Idle, Idle]), System(Lock(1, 0, 0, 0), [Inside(R), Idle, Idle]), first];
    assert Step(V1, run[0], events[0], run[1]) && Step(V1, run[1], events[1], run[2]);
    var laps := [Enter(2, R), Leave(0), Enter(0, R), Leave(2)];
    var cycle := [first, both, second, both, first];
    assert Step(V1, first, laps[0], both) && Step(V1, both, laps[1], second);
    assert Step(V1, second, laps[2], both) && Step(V1, both, laps[3], first);
    run, events := GoRound(V1, run, events, cycle, laps, 2, 1, W, n);
  }

  /** A writer that leaves may wake just one of those asleep. */
  lemma HandsOver(s: System, i: nat, j: nat)
    requires i < |s.t| && j < |s.t| && s.t[i] == Inside(W) && s.t[j] == Asleep(W) && s.l.wWait != 0
    ensures Step(V2, s, Leave(i), System(s.l.(wActive := 0), s.t[i := Idle][j := Woken(W)]))
  {
    hide N;
    NMove(s.t[i := Idle], j, Woken(W));
  }

  lemma GetsIn(s: System, j: nat)
    requires j < |s.t| && s.t[j] == Woken(W) && s.l.wActive == 0 && s.l.rActive == 0
    ensures Step(V2, s, Resume(j), System(s.l.(wActive := 1, wWait := s.l.wWait - 1), s.t[j := Inside(W)]))
  {
  }

  lemma Queues(s: System, i: nat)
    requires i < |s.t| && s.t[i] == Idle && s.l.wActive == 1
    ensures Step(V2, s, Enter(i, W), System(s.l.(wWait := s.l.wWait + 1), s.t[i := Asleep(W)]))
  {
  }

  /** A writer is inside, and a reader and then another writer have asked for the lock. */
  lemma ThreeAsk() returns (run: seq<System>, events: seq<Event>)
    ensures IsRun(V2, run, events) && events == [Enter(0, W), Enter(1, R), Enter(2, W)] && StaysAsleep(run, 2, 1, R)
    ensures run[3] == System(Lock(0, 1, 1, 1), [Inside(W), Asleep(R), Asleep(W)])
  {
    events := [Enter(0, W), Enter(1, R), Enter(2, W)];
    run := [System(INITIAL, [Idle, Idle, Idle]), System(Lock(0, 1, 0, 0), [Inside(W), Idle, Idle]),
            System(Lock(0, 1, 1, 0), [Inside(W), Asleep(R), Idle]),
            System(Lock(0, 1, 1, 1), [Inside(W), Asleep(R), Asleep(W)])];
    assert Step(V2, run[0], events[0], run[1]);
    assert Step(V2, run[1], events[1], run[2]);
    assert Step(V2, run[2], events[2], run[3]);
    hide Step;
  }

  /** A reader starves at the second lock, while two writers take turns. */
  lemma ReaderStarves(n: nat) returns (run: seq<System>, events: seq<Event>)
    ensures IsRun(V2, run, events) && |events| >= 3 + n && events[1] == Enter(1, R)
    ensures StaysAsleep(run, 2, 1, R)
  {
    hide Steps, StaysAsleep;
    var cycle, laps := WritersTakeTurns();
    run, events := ThreeAsk();
    run, events := GoRound(V2, run, events, cycle, laps, 2, 1, R, n);
  }

  lemma WritersTakeTurns() returns (cycle: seq<System>, laps: seq<Event>)
    ensures Steps(V2, cycle, laps) && StaysAsleep(cycle, 0, 1, R) && |laps| == 6
    ensures cycle[0] == cycle[6] == System(Lock(0, 1, 1, 1), [Inside(W), Asleep(R), Asleep(W)])
  {
    hide Step;
    laps := [Leave(0), Resume(2), Enter(0, W), Leave(2), Resume(0), Enter(2, W)];
    cycle := [System(Lock(0, 1, 1, 1), [Inside(W), Asleep(R), Asleep(W)]),
              System(Lock(0, 0, 1, 1), [Idle, Asleep(R), Woken(W)]),
              System(Lock(0, 1, 1, 0), [Idle, Asleep(R), Inside(W)]),
              System(Lock(0, 1, 1, 1), [Asleep(W), Asleep(R), Inside(W)]),
              System(Lock(0, 0, 1, 1), [Woken(W), Asleep(R), Idle]),
              System(Lock(0, 1, 1, 0), [Inside(W), Asleep(R), Idle]),
              System(Lock(0, 1, 1, 1), [Inside(W), Asleep(R), Asleep(W)])];
    HandsOver(cycle[0], 0, 2);
    HandsOver(cycle[3], 2, 0);
    GetsIn(cycle[1], 2);
    GetsIn(cycle[4], 0);
    Queues(cycle[2], 0);
    Queues(cycle[5], 2);
    assert cycle[0].t[0 := Idle][2 := Woken(W)] == cycle[1].t && cycle[3].t[2 := Idle][0 := Woken(W)] == cycle[4].t;
    assert cycle[1].t[2 := Inside(W)] == cycle[2].t && cycle[4].t[0 := Inside(W)] == cycle[5].t;
    assert cycle[2].t[0 := Asleep(W)] == cycle[3].t && cycle[5].t[2 := Asleep(W)] == cycle[6].t;
  }

  // ----- the other order

  /** A comment beside the second lock says that swapping the two cases of a writer's exit turns
      the balance around.  With the cases swapped a writer leaves like this. */
  ghost predicate SwappedExit(s: System, i: nat, s': System) {
    && i < |s.t| && s.t[i] == Inside(W) && s'.l == s.l.(wActive := 0)
    && Rouses(s.t[i := Idle],
              if s.l.rWait != 0 then Broadcast(R) else if s.l.wWait != 0 then Signal(W) else Nothing, s'.t)
  }

  /** Nobody is inside, writers sleep, and no writer has been woken. */
  ghost predicate Dead(s: System) {
    && Exact(s) && s.l.rActive == 0 && s.l.wActive == 0
    && N(s.t, Asleep(W)) > 0 && N(s.t, Woken(W)) == 0
  }

  /** The swapped exit keeps the invariant unless readers wait, writers sleep and none of these has
      been woken; the lock is dead then. */
  lemma SwappedExitIff(s: System, i: nat, s': System)
    requires Inv(V2, s) && SwappedExit(s, i, s')
    ensures Inv(V2, s') <==> !(s.l.rWait > 0 && N(s.t, Asleep(W)) > 0 && N(s.t, Woken(W)) == 0)
    ensures Inv(V2, s') <==> !Dead(s')
  {
    hide N, Rouses;
    var t := s.t[i := Idle];
    var call := if s.l.rWait != 0 then Broadcast(R) else if s.l.wWait != 0 then Signal(W) else Nothing;
    NMove(s.t, i, Idle);
    RousedCounts(t, call, s'.t, R);
    RousedCounts(t, call, s'.t, W);
    RousedSome(t, call, s'.t);
  }

  /** From there no thread ever gets in, unless others arrive or a wakeup is spurious. */
  lemma {:induction false} DeadForEver(run: seq<System>, events: seq<Event>, n: nat)
    requires Steps(V2, run, events) && Dead(run[0]) && n < |run|
    requires forall m :: 0 <= m < |events| ==> events[m].Resume? || events[m].Leave?
    ensures Dead(run[n]) && forall i :: 0 <= i < |run[n].t| ==> !run[n].t[i].Inside?
  {
    if n > 0 {
      DeadForEver(run, events, n - 1);
      assert Step(V2, run[n - 1], events[n - 1], run[n - 1 + 1]);
      DeadStays(run[n - 1], events[n - 1], run[n]);
    }
    DeadEmpty(run[n]);
  }

  /** Three calls after which the swapped exit leaves a dead lock: a writer is inside, and a reader and
      then a writer have asked for the lock. */
  lemma SwappedExitDies() returns (run: seq<System>, events: seq<Event>, s': System)
    ensures IsRun(V2, run, events) && events == [Enter(0, W), Enter(1, R), Enter(2, W)]
    ensures SwappedExit(run[3], 0, s') && Dead(s')
  {
    hide Step, Steps, StaysAsleep, N, Inv, Dead;
    run, events := ThreeAsk();
    RunInv(V2, run, events, 3);
    var t := run[3].t[0 := Idle];
    CanRouse(t, Broadcast(R));
    s' := System(Lock(0, 0, 1, 1), WakeAll(t, Broadcast(R)));
    NoWriterWoken();
    SwappedExitIff(run[3], 0, s');
  }

  lemma NoWriterWoken()
    ensures var t := [Inside(W), Asleep(R), Asleep(W)]; N(t, Asleep(W)) > 0 && N(t, Woken(W)) == 0
  {
    var t := [Inside(W), Asleep(R), Asleep(W)];
    InPhase(t, 2);
    CountNone(t, {Woken(W)});
  }

  lemma DeadEmpty(s: System)
    requires Dead(s)
    ensures forall i :: 0 <= i < |s.t| ==> !s.t[i].Inside?
  {
    forall i: nat | i < |s.t| ensures !s.t[i].Inside? {
      assert s.t[i].Inside? ==> s.t[i].kind == R || s.t[i].kind == W;
      InPhase(s.t, i);
    }
  }

  lemma DeadStays(s: System, e: Event, s': System)
    requires Dead(s) && Step(V2, s, e, s') && (e.Resume? || e.Leave?)
    ensures Dead(s')
  {
    assert s.t[e.i].kind == R || s.t[e.i].kind == W;
    DeadEmpty(s);
    if e.Resume? {
      InPhase(s.t, e.i);
      NMove(s.t, e.i, s'.t[e.i]);
      hide N;
    }
  }
}
