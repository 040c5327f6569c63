/**
 Iterators as values.  An iterator keeps the addresses of two arrays of pointers, one to go on from
 and one to go back from, and the level up to which calls are allowed.  Each array belongs to a node
 and has as many entries as the node's tower has levels; the level allowed need not be that.
 */
module Cursors {
  import opened Towers
  import opened SkipLists

  /** An array of pointers: none, or one of the two of the node at position `p`. */
  datatype Way = Unset | NextOf(p: nat) | PrevOf(p: nat)

  datatype Spot = Spot(next: Way, prev: Way, lev: nat)

  /** What a call finds: a node, nothing, or that it reads outside an array. */
  datatype Found = At(p: nat) | Nothing | Wild

  /** All towers have a level, and the header has all levels. */
  ghost predicate Shape(h: seq<nat>) {
    |h| > 0 && forall p :: 0 <= p < |h| ==> 1 <= h[p] <= h[0]
  }

  function Size(h: seq<nat>, w: Way): nat {
    if w.Unset? || w.p >= |h| then 0 else h[w.p]
  }

  /** Where the entry of an array for level `i` leads. */
  function LeadsTo(h: seq<nat>, w: Way, i: nat): (r: nat)
    requires i < Size(h, w)
    ensures w.NextOf? ==> r == NextAt(h, w.p, i)
  {
    if w.NextOf? then NextAt(h, w.p, i) else if i < h[0] then Before(h, w.p, i) else 0
  }

  /** Where an iterator starts that is set to the node at position `p`. */
  function Start(h: seq<nat>, p: nat): Spot
    requires p < |h|
  {
    Spot(NextOf(p), PrevOf(p), h[p])
  }

  /** Going on, on level `lev` counted from 1.  It stays where it is at the header and at the place
      `end`. */
  function GoOn(h: seq<nat>, s: Spot, end: Option<nat>, lev: nat): (Spot, Found) {
    if !(1 <= lev <= s.lev) || s.next == Unset then (s, Nothing)
    else if lev > Size(h, s.next) then (s, Wild)
    else
      var r := LeadsTo(h, s.next, lev - 1);
      if r == 0 || end == Some(r) then (s, Nothing) else (Spot(NextOf(r), s.next, Size(h, NextOf(r))), At(r))
  }

  /** Going back. */
  function GoBack(h: seq<nat>, s: Spot, lev: nat): (Spot, Found) {
    if !(1 <= lev <= s.lev) then (s, Nothing)
    else if lev > Size(h, s.prev) then (s, Wild)
    else
      var r := LeadsTo(h, s.prev, lev - 1);
      if r == 0 then (s, Nothing) else (Spot(s.prev, PrevOf(r), Size(h, PrevOf(r))), At(r))
  }

  // ----- turning round

  /** After going on to a node, going on again is safe on every level; going back on level `k` reads
      outside the array exactly if `k` is above the tower that the iterator came from but not above
      the one it has come to; and going back on the same level undoes the step. */
  lemma AfterGoOn(h: seq<nat>, s: Spot, end: Option<nat>, j: nat, k: nat, r: nat)
    requires Shape(h) && GoOn(h, s, end, j).1 == At(r)
    ensures r < |h|
    ensures var s' := GoOn(h, s, end, j).0;
      && GoOn(h, s', end, k).1 != Wild
      && (GoBack(h, s', k).1 == Wild <==> Size(h, s.next) < k <= h[r])
      && GoBack(h, s', j) == (Spot(s.next, PrevOf(r), h[r]), At(r))
  {
    Lands(h, s.next, j - 1);
  }

  /** The same after going back. */
  lemma AfterGoBack(h: seq<nat>, s: Spot, end: Option<nat>, j: nat, k: nat, r: nat)
    requires Shape(h) && GoBack(h, s, j).1 == At(r)
    ensures r < |h|
    ensures var s' := GoBack(h, s, j).0;
      && GoBack(h, s', k).1 != Wild
      && (GoOn(h, s', end, k).1 == Wild <==> Size(h, s.prev) < k <= h[r])
      && (end != Some(r) ==> GoOn(h, s', end, j) == (Spot(NextOf(r), s.prev, h[r]), At(r)))
  {
    Lands(h, s.prev, j - 1);
  }

  /** An entry leads to a tower that reaches its level. */
  lemma Lands(h: seq<nat>, w: Way, i: nat)
    requires Shape(h) && i < Size(h, w)
    ensures LeadsTo(h, w, i) < |h| && h[LeadsTo(h, w, i)] > i
  {
    assert h[w.p] <= h[0];
  }

  // ----- one level

  datatype Move = On | Back

  function MoveOne(h: seq<nat>, s: Spot, end: Option<nat>, lev: nat, m: Move): (Spot, Found) {
    if m == On then GoOn(h, s, end, lev) else GoBack(h, s, lev)
  }

  /** What a sequence of moves on level `lev` finds. */
  function Finds(h: seq<nat>, s: Spot, end: Option<nat>, lev: nat, moves: seq<Move>): seq<Found>
    decreases |moves|
  {
    if moves == [] then []
    else
      var (s', found) := MoveOne(h, s, end, lev, moves[0]);
      [found] + Finds(h, s', end, lev, moves[1..])
  }

  /** Both arrays reach the level, and it is allowed. */
  predicate Fit(h: seq<nat>, s: Spot, lev: nat) {
    1 <= lev <= s.lev && lev <= Size(h, s.next) && lev <= Size(h, s.prev)
  }

  /** An iterator that is only used on one level, in either direction, never reads outside an array. */
  lemma {:induction false} OneLevelSafe(h: seq<nat>, s: Spot, end: Option<nat>, lev: nat, moves: seq<Move>)
    requires Shape(h) && Fit(h, s, lev)
    ensures Wild !in Finds(h, s, end, lev, moves)
    decreases |moves|
  {
    if moves != [] {
      Lands(h, s.next, lev - 1);
      Lands(h, s.prev, lev - 1);
      OneLevelSafe(h, MoveOne(h, s, end, lev, moves[0]).0, end, lev, moves[1..]);
    }
  }

  /** The iterator is in the gap behind position `a` of the level: there is where it goes back to, and
      the successor where it goes on to. */
  ghost predicate Gap(h: seq<nat>, s: Spot, lev: nat, a: nat) {
    && Shape(h) && Fit(h, s, lev) && a < |h| && h[a] >= lev
    && LeadsTo(h, s.prev, lev - 1) == a && LeadsTo(h, s.next, lev - 1) == NextAt(h, a, lev - 1)
  }

  /** What a cursor between the nodes of the level finds, from the gap behind `a`. */
  function CursorFinds(h: seq<nat>, a: nat, i: nat, moves: seq<Move>): seq<Found>
    requires a < |h| && i < h[0]
    decreases |moves|
  {
    if moves == [] then []
    else if moves[0] == On then
      var r := NextAt(h, a, i);
      if r == 0 then [Nothing] + CursorFinds(h, a, i, moves[1..]) else [At(r)] + CursorFinds(h, r, i, moves[1..])
    else if a == 0 then [Nothing] + CursorFinds(h, a, i, moves[1..])
    else [At(a)] + CursorFinds(h, Before(h, a, i), i, moves[1..])
  }

  /** On one level an iterator is such a cursor. */
  lemma {:induction false} OneLevelWalks(h: seq<nat>, s: Spot, lev: nat, a: nat, moves: seq<Move>)
    requires Gap(h, s, lev, a)
    ensures h[0] >= lev && Finds(h, s, None, lev, moves) == CursorFinds(h, a, lev - 1, moves)
    decreases |moves|
  {
    var i := lev - 1;
    assert h[a] <= h[0];
    if moves != [] {
      GapOn(h, s, lev, a);
      GapBack(h, s, lev, a);
      var a' := if moves[0] == On then (if NextAt(h, a, i) == 0 then a else NextAt(h, a, i))
                else if a == 0 then a else Before(h, a, i);
      hide Gap, GoOn, GoBack;
      OneLevelWalks(h, MoveOne(h, s, None, lev, moves[0]).0, lev, a', moves[1..]);
    }
  }

  lemma GapOn(h: seq<nat>, s: Spot, lev: nat, a: nat)
    requires Gap(h, s, lev, a)
    ensures var (s', found) := GoOn(h, s, None, lev); var r := NextAt(h, a, lev - 1);
      if r == 0 then s' == s && found == Nothing else found == At(r) && Gap(h, s', lev, r)
  {
    Lands(h, s.next, lev - 1);
  }

  lemma GapBack(h: seq<nat>, s: Spot, lev: nat, a: nat)
    requires Gap(h, s, lev, a)
    ensures h[0] >= lev
    ensures var (s', found) := GoBack(h, s, lev);
      if a == 0 then s' == s && found == Nothing
      else found == At(a) && Gap(h, s', lev, Before(h, a, lev - 1))
  {
    assert h[a] <= h[0];
    Lands(h, s.prev, lev - 1);
    BeforeThenNext(h, a, lev - 1);
  }

  /** A new iterator is in no gap: going on leads behind the next node, but going back leads before
      the previous one, so the node it is set to is skipped either way. */
  lemma FromStart(h: seq<nat>, p: nat, lev: nat)
    requires Shape(h) && p < |h| && 1 <= lev <= h[p]
    ensures Fit(h, Start(h, p), lev) && h[0] >= lev
    ensures var (s, found) := GoOn(h, Start(h, p), None, lev); var r := NextAt(h, p, lev - 1);
      if r == 0 then found == Nothing else found == At(r) && Gap(h, s, lev, r)
    ensures var (s, found) := GoBack(h, Start(h, p), lev); var r := Before(h, p, lev - 1);
      if r == 0 then found == Nothing else found == At(r) && Gap(h, s, lev, Before(h, r, lev - 1))
  {
    assert h[p] <= h[0];
    var r := Before(h, p, lev - 1);
    Lands(h, NextOf(p), lev - 1);
    if r != 0 {
      BeforeThenNext(h, r, lev - 1);
    }
  }

  /** Towers of heights 2, 1 and 2: having gone on to the last one on the lowest level, going back on
      the second level is allowed, and reads outside the array of the low tower. */
  lemma WildHere(h: seq<nat>)
    requires |h| == 4 && h[0] >= 2 && h[1..] == [2, 1, 2]
    ensures var s1 := GoOn(h, Start(h, 0), None, 1).0; var s2 := GoOn(h, s1, None, 1).0;
      && GoOn(h, s2, None, 1) == (Spot(NextOf(3), NextOf(2), 2), At(3))
      && GoBack(h, GoOn(h, s2, None, 1).0, 2).1 == Wild
  {
    assert h[1] == h[1..][0] && h[2] == h[1..][1] && h[3] == h[1..][2];
    NextUnique(h, 0, 0, 1);
    NextUnique(h, 1, 0, 2);
    NextUnique(h, 2, 0, 3);
    hide NextAt;
  }
}
