/**
 Threads around a reader/writer lock: what each one is doing, how many do what, and what a
 wakeup may change.
 */
module Threads {

  /** A thread asleep on a condition variable, one that has been woken but has not run yet, or
      one inside its critical section. */
  datatype Phase = Idle | Asleep(kind: Kind) | Woken(kind: Kind) | Inside(kind: Kind)

  datatype Kind = R | W

  /** What a thread does to the condition variables before it releases the mutex. */
  datatype Wakeup = Nothing | Signal(kind: Kind) | Broadcast(kind: Kind)

  // ----- counting

  function Count(t: seq<Phase>, c: set<Phase>): (n: nat)
    ensures n <= |t|
  {
    if t == [] then 0 else (if t[0] in c then 1 else 0) + Count(t[1..], c)
  }

  /** How many threads are in one phase. */
  function N(t: seq<Phase>, p: Phase): (n: nat)
    ensures n <= |t|
  {
    Count(t, {p})
  }

  /** One thread changes its phase. */
  lemma {:induction false} CountMove(t: seq<Phase>, i: nat, p: Phase, c: set<Phase>)
    requires i < |t|
    ensures Count(t[i := p], c) + (if t[i] in c then 1 else 0) == Count(t, c) + (if p in c then 1 else 0)
  {
    if i == 0 {
      assert t[i := p][1..] == t[1..];
    } else {
      assert t[i := p][1..] == t[1..][i - 1 := p];
      CountMove(t[1..], i - 1, p, c);
    }
  }

  lemma {:induction false} CountAtLeast(t: seq<Phase>, u: seq<Phase>, c: set<Phase>)
    requires |t| == |u| && forall j :: 0 <= j < |t| && t[j] in c ==> u[j] in c
    ensures Count(t, c) <= Count(u, c)
  {
    if t != [] {
      assert t[0] in c ==> u[0] in c;
      assert forall j :: 0 <= j < |t[1..]| ==> t[1..][j] == t[j + 1] && u[1..][j] == u[j + 1];
      CountAtLeast(t[1..], u[1..], c);
    }
  }

  lemma CountSame(t: seq<Phase>, u: seq<Phase>, c: set<Phase>)
    requires |t| == |u| && forall j :: 0 <= j < |t| ==> (t[j] in c <==> u[j] in c)
    ensures Count(t, c) == Count(u, c)
  {
    CountAtLeast(t, u, c);
    CountAtLeast(u, t, c);
  }

  lemma {:induction false} CountNone(t: seq<Phase>, c: set<Phase>)
    ensures Count(t, c) == 0 <==> forall j :: 0 <= j < |t| ==> t[j] !in c
  {
    if t != [] {
      CountNone(t[1..], c);
      assert forall j :: 0 < j < |t| ==> t[j] == t[1..][j - 1];
      assert forall j :: 0 <= j < |t[1..]| ==> t[1..][j] == t[j + 1];
    }
  }

  lemma NMove(t: seq<Phase>, i: nat, p: Phase)
    requires i < |t|
    ensures N(t, t[i]) > 0
    ensures forall q :: N(t[i := p], q) + (if t[i] == q then 1 else 0) == N(t, q) + (if p == q then 1 else 0)
  {
    CountNone(t, {t[i]});
    forall q ensures N(t[i := p], q) + (if t[i] == q then 1 else 0) == N(t, q) + (if p == q then 1 else 0) {
      CountMove(t, i, p, {q});
    }
  }

  /** A thread in the phase, if the count says so. */
  lemma Someone(t: seq<Phase>, p: Phase) returns (i: nat)
    requires N(t, p) > 0
    ensures i < |t| && t[i] == p
  {
    CountNone(t, {p});
    i :| i < |t| && t[i] in {p};
  }

  lemma InPhase(t: seq<Phase>, i: nat)
    requires i < |t|
    ensures N(t, t[i]) > 0
  {
    CountNone(t, {t[i]});
  }

  /** If at most one thread is in the class, nobody but `i` is. */
  lemma NoOther(t: seq<Phase>, c: set<Phase>, i: nat)
    requires i < |t| && t[i] in c && Count(t, c) <= 1 && Idle !in c
    ensures forall j :: 0 <= j < |t| && j != i ==> t[j] !in c
  {
    var u := t[i := Idle];
    CountMove(t, i, Idle, c);
    CountNone(u, c);
    assert forall j :: 0 <= j < |t| && j != i ==> u[j] == t[j];
  }

  // ----- wakeups

  /** What a call to a condition variable may do to the sleepers: a signal wakes at least one
      of them if there is any, a broadcast all. */
  ghost predicate Rouses(t: seq<Phase>, call: Wakeup, u: seq<Phase>) {
    && |u| == |t|
    && (forall j :: 0 <= j < |t| ==>
          u[j] == t[j] || (!call.Nothing? && t[j] == Asleep(call.kind) && u[j] == Woken(call.kind)))
    && (call.Signal? && N(t, Asleep(call.kind)) > 0 ==> N(u, Woken(call.kind)) > N(t, Woken(call.kind)))
    && (call.Broadcast? ==> N(u, Asleep(call.kind)) == 0)
  }

  /** A wakeup changes no count of threads inside or waiting. */
  lemma RousedCounts(t: seq<Phase>, call: Wakeup, u: seq<Phase>, k: Kind)
    requires Rouses(t, call, u)
    ensures N(u, Inside(k)) == N(t, Inside(k))
    ensures N(u, Asleep(k)) + N(u, Woken(k)) == N(t, Asleep(k)) + N(t, Woken(k))
    ensures N(u, Woken(k)) >= N(t, Woken(k))
    ensures call == Nothing || call.kind != k ==> N(u, Asleep(k)) == N(t, Asleep(k))
  {
    CountSame(t, u, {Inside(k)});
    CountSame(t, u, {Asleep(k), Woken(k)});
    WaitingSplits(t, k);
    WaitingSplits(u, k);
    CountAtLeast(t, u, {Woken(k)});
    if call == Nothing || call.kind != k {
      CountSame(t, u, {Asleep(k)});
    }
  }

  lemma RousedSome(t: seq<Phase>, call: Wakeup, u: seq<Phase>)
    requires Rouses(t, call, u)
    ensures |u| == |t|
    ensures call.Signal? && N(t, Asleep(call.kind)) > 0 ==> N(u, Woken(call.kind)) > 0
    ensures call.Broadcast? ==> N(u, Asleep(call.kind)) == 0
  {
  }

  /** Waiting threads are asleep or woken. */
  lemma {:induction false} WaitingSplits(t: seq<Phase>, k: Kind)
    ensures Count(t, {Asleep(k), Woken(k)}) == N(t, Asleep(k)) + N(t, Woken(k))
  {
    if t != [] {
      WaitingSplits(t[1..], k);
    }
  }

  // ----- draining

  /** A step of a thread that is leaving, going in, or going back to sleep; no thread arrives and
      none wakes of itself. */
  ghost predicate Drains(t: seq<Phase>, i: nat, call: Wakeup, u: seq<Phase>) {
    && i < |t|
    && match t[i]
       case Inside(k) => Rouses(t[i := Idle], call, u)
       case Woken(k) => u == t[i := Inside(k)] || u == t[i := Asleep(k)]
       case _ => false
  }

  const BUSY: set<Phase> := {Asleep(R), Asleep(W), Woken(R), Woken(W), Inside(R), Inside(W)}
  const WAITING: set<Phase> := {Asleep(R), Asleep(W), Woken(R), Woken(W)}
  const WOKEN: set<Phase> := {Woken(R), Woken(W)}

  /** Threads not idle, then threads waiting, then threads woken, as one number. */
  function Rank(t: seq<Phase>): nat {
    var m := |t| + 1;
    (Count(t, BUSY) * m + Count(t, WAITING)) * m + Count(t, WOKEN)
  }

  lemma Lexicographic(m: nat, a: nat, b: nat, c: nat, a': nat, b': nat, c': nat)
    requires b' < m && c' < m
    requires a' < a || (a' == a && (b' < b || (b' == b && c' < c)))
    ensures (a' * m + b') * m + c' < (a * m + b) * m + c
  {
    if a' < a {
      Times(m, a' + 1, a);
      assert (a' + 1) * m == a' * m + m;
      Times(m, a' * m + b' + 1, a * m + b);
      assert (a' * m + b' + 1) * m == (a' * m + b') * m + m;
    } else if b' < b {
      Times(m, a' * m + b' + 1, a * m + b);
      assert (a' * m + b' + 1) * m == (a' * m + b') * m + m;
    }
  }

  lemma {:induction false} Times(m: nat, x: nat, y: nat)
    requires x <= y
    ensures x * m <= y * m
    decreases m
  {
    if m > 0 {
      Times(m - 1, x, y);
    }
  }

  lemma Classes(p: Phase)
    ensures p in BUSY <==> p != Idle
    ensures p in WAITING <==> p.Asleep? || p.Woken?
    ensures p in WOKEN <==> p.Woken?
  {
    if p != Idle {
      assert p.kind == R || p.kind == W;
    }
  }

  lemma RousedBusy(t: seq<Phase>, call: Wakeup, u: seq<Phase>)
    requires Rouses(t, call, u)
    ensures Count(u, BUSY) == Count(t, BUSY)
  {
    forall j | 0 <= j < |t| ensures t[j] in BUSY <==> u[j] in BUSY {
      Classes(t[j]);
      Classes(u[j]);
    }
    CountSame(t, u, BUSY);
  }

  lemma RankDrops(t: seq<Phase>, u: seq<Phase>)
    requires |u| == |t|
    requires Count(u, BUSY) < Count(t, BUSY) || (Count(u, BUSY) == Count(t, BUSY)
      && (Count(u, WAITING) < Count(t, WAITING) || (Count(u, WAITING) == Count(t, WAITING)
        && Count(u, WOKEN) < Count(t, WOKEN))))
    ensures Rank(u) < Rank(t)
  {
    Lexicographic(|t| + 1, Count(t, BUSY), Count(t, WAITING), Count(t, WOKEN),
                  Count(u, BUSY), Count(u, WAITING), Count(u, WOKEN));
  }

  lemma DrainLowers(t: seq<Phase>, i: nat, call: Wakeup, u: seq<Phase>)
    requires Drains(t, i, call, u)
    ensures Rank(u) < Rank(t) && |u| == |t|
  {
    hide Rank, Rouses;
    Classes(t[i]);
    if t[i].Inside? {
      CountMove(t, i, Idle, BUSY);
      RousedBusy(t[i := Idle], call, u);
      RousedSome(t[i := Idle], call, u);
    } else {
      var p := u[i];
      Classes(p);
      CountMove(t, i, p, BUSY);
      CountMove(t, i, p, WAITING);
      CountMove(t, i, p, WOKEN);
      assert u == t[i := p];
    }
    hide BUSY, WAITING, WOKEN;
    RankDrops(t, u);
  }
}
