/**
 Bulk operations as values.  A sorted sequence is determined by its runs: for each key, the
 equal items in order.  Copying, joining and intersecting are described by what they do to
 every run.
 */
module Runs {
  import opened KeyOrder
  import opened Towers

  /** The items equal to `k`, in order. */
  function Run(cmp: Comparator, s: seq<Item>, k: Item): (r: seq<Item>)
  {
    if s == [] then [] else (if Eq(cmp, s[0], k) then [s[0]] else []) + Run(cmp, s[1..], k)
  }

  lemma RunOfHead(cmp: Comparator, s: seq<Item>, k: Item)
    requires s != []
    ensures if Eq(cmp, s[0], k) then Run(cmp, s, k) == [s[0]] + Run(cmp, s[1..], k)
      && Run(cmp, s, k)[1..] == Run(cmp, s[1..], k)
            else Run(cmp, s, k) == Run(cmp, s[1..], k)
  {
  }

  function Reverse<T>(s: seq<T>): (r: seq<T>)
  {
    if s == [] then [] else Reverse(s[1..]) + [s[0]]
  }

  lemma {:induction false} ReverseAppend<T>(a: seq<T>, b: seq<T>)
    ensures Reverse(a + b) == Reverse(b) + Reverse(a)
  {
    if a == [] {
      assert a + b == b;
    } else {
      assert (a + b)[1..] == a[1..] + b;
      ReverseAppend(a[1..], b);
    }
  }

  lemma ReverseOfHead<T>(x: T, s: seq<T>)
    ensures Reverse([x] + s) == Reverse(s) + [x]
  {
    assert ([x] + s)[1..] == s;
  }

  lemma {:induction false} ReverseTwice<T>(s: seq<T>)
    ensures Reverse(Reverse(s)) == s
  {
    if s != [] {
      ReverseAppend(Reverse(s[1..]), [s[0]]);
      ReverseTwice(s[1..]);
      assert Reverse([s[0]]) == [s[0]];
    }
  }

  lemma {:induction false} RunAppend(cmp: Comparator, a: seq<Item>, b: seq<Item>, k: Item)
    ensures Run(cmp, a + b, k) == Run(cmp, a, k) + Run(cmp, b, k)
  {
    if a == [] {
      assert a + b == b;
    } else {
      RunAppend(cmp, a[1..], b, k);
      hide Run;
      var x := a[0];
      RunOfCons(cmp, x, a[1..], k);
      RunOfCons(cmp, x, a[1..] + b, k);
      assert a == [x] + a[1..] && a + b == [x] + (a[1..] + b);
      Assoc(if Eq(cmp, x, k) then [x] else [], Run(cmp, a[1..], k), Run(cmp, b, k));
    }
  }

  lemma RunOfCons(cmp: Comparator, x: Item, s: seq<Item>, k: Item)
    ensures Run(cmp, [x] + s, k) == (if Eq(cmp, x, k) then [x] else []) + Run(cmp, s, k)
  {
    assert ([x] + s)[1..] == s;
  }

  lemma Assoc<T>(a: seq<T>, b: seq<T>, c: seq<T>)
    ensures a + (b + c) == (a + b) + c
  {
  }

  lemma {:induction false} RunOfNone(cmp: Comparator, s: seq<Item>, k: Item)
    requires forall j :: 0 <= j < |s| ==> !Eq(cmp, s[j], k)
    ensures Run(cmp, s, k) == []
  {
    if s != [] {
      RunOfNone(cmp, s[1..], k);
    }
  }

  lemma {:induction false} RunHas(cmp: Comparator, s: seq<Item>, k: Item)
    ensures Run(cmp, s, k) != [] <==> exists j :: 0 <= j < |s| && Eq(cmp, s[j], k)
  {
    if s != [] {
      RunHas(cmp, s[1..], k);
      if j :| 0 <= j < |s[1..]| && Eq(cmp, s[1..][j], k) {
        assert s[1..][j] == s[j + 1];
      }
      if j :| 0 <= j < |s| && Eq(cmp, s[j], k) {
        if j > 0 {
          assert s[1..][j - 1] == s[j];
        }
      }
    }
  }

  /** Everything in a run is equal to its key, and runs only depend on the key's class. */
  lemma {:induction false} RunOfEqualKeys(cmp: Comparator, s: seq<Item>, k: Item, l: Item)
    requires Eq(cmp, k, l)
    ensures Run(cmp, s, k) == Run(cmp, s, l)
  {
    if s != [] {
      RunOfEqualKeys(cmp, s[1..], k, l);
      EqTransfers(cmp, s[0], k, l);
    }
  }

  lemma EqTransfers(cmp: Comparator, x: Item, k: Item, l: Item)
    requires Eq(cmp, k, l)
    ensures Eq(cmp, x, k) <==> Eq(cmp, x, l)
  {
    assert Through(x, k, l) && Through(l, k, x) && Through(x, l, k) && Through(k, l, x);
  }

  lemma NoEqualBefore(cmp: Comparator, s: seq<Item>, x: Item, k: Item)
    requires Eq(cmp, x, k)
    ensures Run(cmp, s[..LowerBound(cmp, s, x)], k) == []
  {
    var a := s[..LowerBound(cmp, s, x)];
    forall j | 0 <= j < |a| ensures !Eq(cmp, a[j], k) {
      Transitive(cmp, a[j], x, k);
    }
    RunOfNone(cmp, a, k);
  }

  /** An insertion puts the new item at the head of its run and touches no other run. */
  lemma RunOfInsert(cmp: Comparator, s: seq<Item>, x: Item, k: Item)
    ensures Run(cmp, Insert(cmp, s, x), k) == (if Eq(cmp, x, k) then [x] else []) + Run(cmp, s, k)
  {
    hide LowerBound, Run;
    var r := LowerBound(cmp, s, x);
    var p, q := s[..r], s[r..];
    assert s == p + q && Insert(cmp, s, x) == p + ([x] + q);
    RunAppend(cmp, p, q, k);
    RunAppend(cmp, p, [x] + q, k);
    RunOfCons(cmp, x, q, k);
    if Eq(cmp, x, k) {
      NoEqualBefore(cmp, s, x, k);
      assert [] + ([x] + Run(cmp, q, k)) == [x] + ([] + Run(cmp, q, k));
    } else {
      assert [] + Run(cmp, s, k) == Run(cmp, s, k);
    }
  }

  // ----- a sorted sequence is its runs

  lemma SortedTail(cmp: Comparator, s: seq<Item>)
    requires s != [] && Sorted(cmp, s)
    ensures Sorted(cmp, s[1..]) && AtLeast(cmp, s[1..], s[0])
  {
    assert forall j :: 0 <= j < |s[1..]| ==> s[1..][j] == s[j + 1];
  }

  ghost predicate AtLeast(cmp: Comparator, s: seq<Item>, k: Item) {
    forall j :: 0 <= j < |s| ==> cmp(k, s[j]) <= 0
  }

  lemma AtLeastTail(cmp: Comparator, s: seq<Item>, k: Item)
    requires s != [] && AtLeast(cmp, s, k)
    ensures AtLeast(cmp, s[1..], k) && cmp(k, s[0]) <= 0
  {
    assert forall j :: 0 <= j < |s[1..]| ==> s[1..][j] == s[j + 1];
  }

  ghost predicate Above(cmp: Comparator, s: seq<Item>, k: Item) {
    forall j :: 0 <= j < |s| ==> Less(cmp, k, s[j])
  }

  lemma FirstIsLeast(cmp: Comparator, s: seq<Item>, x: Item)
    requires Sorted(cmp, s) && Run(cmp, s, x) != []
    ensures s != [] && cmp(s[0], x) <= 0
  {
    RunHas(cmp, s, x);
    var j :| 0 <= j < |s| && Eq(cmp, s[j], x);
    if j > 0 {
      Transitive(cmp, s[0], s[j], x);
    }
  }

  lemma {:induction false} SortedByRuns(cmp: Comparator, a: seq<Item>, b: seq<Item>)
    requires Sorted(cmp, a) && Sorted(cmp, b)
    requires forall k :: Run(cmp, a, k) == Run(cmp, b, k)
    ensures a == b
    decreases |a|
  {
    if b != [] {
      RunOfHead(cmp, b, b[0]);
    }
    if a != [] {
      assert Run(cmp, a, a[0])[0] == a[0];
      FirstIsLeast(cmp, b, a[0]);
      assert Run(cmp, b, b[0])[0] == b[0];
      FirstIsLeast(cmp, a, b[0]);
      assert Eq(cmp, b[0], a[0]);
      assert Run(cmp, b, a[0])[0] == b[0];
      assert a[0] == b[0];
      forall k ensures Run(cmp, a[1..], k) == Run(cmp, b[1..], k) {
        assert Run(cmp, a, k) == Run(cmp, b, k);
        RunOfHead(cmp, a, k);
        RunOfHead(cmp, b, k);
      }
      SortedByRuns(cmp, a[1..], b[1..]);
      assert a == [a[0]] + a[1..] && b == [b[0]] + b[1..];
    }
  }

  // ----- copying and joining with duplicates

  /** Inserting the items of `s` one after the other. */
  function InsertAll(cmp: Comparator, t: seq<Item>, s: seq<Item>): (r: seq<Item>)
    decreases |s|
  {
    if s == [] then t else InsertAll(cmp, Insert(cmp, t, s[0]), s[1..])
  }

  lemma {:induction false} InsertAllOneMore(cmp: Comparator, t: seq<Item>, s: seq<Item>, x: Item)
    ensures InsertAll(cmp, t, s + [x]) == Insert(cmp, InsertAll(cmp, t, s), x)
    decreases |s|
  {
    if s == [] {
      assert ([] + [x])[1..] == [];
    } else {
      assert (s + [x])[1..] == s[1..] + [x];
      InsertAllOneMore(cmp, Insert(cmp, t, s[0]), s[1..], x);
    }
  }

  lemma {:induction false} InsertAllSorted(cmp: Comparator, t: seq<Item>, s: seq<Item>)
    requires Sorted(cmp, t)
    ensures Sorted(cmp, InsertAll(cmp, t, s))
    ensures |InsertAll(cmp, t, s)| == |t| + |s|
    decreases |s|
  {
    if s != [] {
      InsertKeepsSorted(cmp, t, s[0]);
      InsertAllSorted(cmp, Insert(cmp, t, s[0]), s[1..]);
    }
  }

  /** Each run of the target gets the source's run, reversed, in front. */
  lemma {:induction false} RunOfInsertAll(cmp: Comparator, t: seq<Item>, s: seq<Item>, k: Item)
    ensures Run(cmp, InsertAll(cmp, t, s), k) == Reverse(Run(cmp, s, k)) + Run(cmp, t, k)
    decreases |s|
  {
    if s != [] {
      RunOfInsertAll(cmp, Insert(cmp, t, s[0]), s[1..], k);
      RunOfInsert(cmp, t, s[0], k);
      RunOfHead(cmp, s, k);
      ReverseOfHead(s[0], Run(cmp, s[1..], k));
    }
  }

  /** Copying a list into an empty one and that copy into another empty one gives the list
      back, item for item. */
  lemma CopyTwice(cmp: Comparator, s: seq<Item>)
    requires Sorted(cmp, s)
    ensures InsertAll(cmp, [], InsertAll(cmp, [], s)) == s
  {
    var c := InsertAll(cmp, [], s);
    var d := InsertAll(cmp, [], c);
    InsertAllSorted(cmp, [], s);
    InsertAllSorted(cmp, [], c);
    forall k ensures Run(cmp, d, k) == Run(cmp, s, k) {
      RunOfInsertAll(cmp, [], s, k);
      RunOfInsertAll(cmp, [], c, k);
      ReverseTwice(Run(cmp, s, k));
      assert Run(cmp, c, k) == Reverse(Run(cmp, s, k));
    }
    SortedByRuns(cmp, d, s);
  }

  /** No run reads differently backwards. */
  ghost predicate Palindromic(cmp: Comparator, s: seq<Item>) {
    forall k :: Reverse(Run(cmp, s, k)) == Run(cmp, s, k)
  }

  /** One copy alone keeps the order of a list exactly when every run is the same backwards. */
  lemma CopyOnceIff(cmp: Comparator, s: seq<Item>)
    requires Sorted(cmp, s)
    ensures InsertAll(cmp, [], s) == s <==> Palindromic(cmp, s)
  {
    var c := InsertAll(cmp, [], s);
    InsertAllSorted(cmp, [], s);
    forall k ensures Run(cmp, c, k) == Reverse(Run(cmp, s, k)) {
      RunOfInsertAll(cmp, [], s, k);
    }
    if Palindromic(cmp, s) {
      forall k ensures Run(cmp, c, k) == Run(cmp, s, k) {
        assert Reverse(Run(cmp, s, k)) == Run(cmp, s, k);
      }
      SortedByRuns(cmp, c, s);
    }
  }

  // ----- joining without duplicates

  function InsertAllAbsent(cmp: Comparator, t: seq<Item>, s: seq<Item>): (r: seq<Item>)
    decreases |s|
  {
    if s == [] then t else InsertAllAbsent(cmp, InsertIfAbsent(cmp, t, s[0]), s[1..])
  }

  lemma {:induction false} InsertAllAbsentOneMore(cmp: Comparator, t: seq<Item>, s: seq<Item>, x: Item)
    ensures InsertAllAbsent(cmp, t, s + [x]) == InsertIfAbsent(cmp, InsertAllAbsent(cmp, t, s), x)
    decreases |s|
  {
    if s == [] {
      assert ([] + [x])[1..] == [];
    } else {
      assert (s + [x])[1..] == s[1..] + [x];
      InsertAllAbsentOneMore(cmp, InsertIfAbsent(cmp, t, s[0]), s[1..], x);
    }
  }

  lemma InsertIfAbsentSorted(cmp: Comparator, t: seq<Item>, x: Item)
    requires Sorted(cmp, t)
    ensures Sorted(cmp, InsertIfAbsent(cmp, t, x))
  {
    InsertKeepsSorted(cmp, t, x);
  }

  function Take<T>(n: nat, s: seq<T>): seq<T> { if n <= |s| then s[..n] else s }

  /** What an insertion that refuses equal keys does to the run of `k`. */
  lemma RunOfInsertIfAbsent(cmp: Comparator, t: seq<Item>, x: Item, k: Item)
    requires Sorted(cmp, t)
    ensures Run(cmp, InsertIfAbsent(cmp, t, x), k)
         == if Run(cmp, t, k) == [] && Eq(cmp, x, k) then [x] else Run(cmp, t, k)
  {
    PresentIffSomeEqual(cmp, t, x);
    RunHas(cmp, t, x);
    RunOfInsert(cmp, t, x, k);
    hide Run, Present, Insert, Sorted;
    if Eq(cmp, x, k) {
      RunOfEqualKeys(cmp, t, x, k);
    }
  }

  /** A key the target has keeps its run; any other key gets the first of the source's run. */
  lemma {:induction false} RunOfInsertAllAbsent(cmp: Comparator, t: seq<Item>, s: seq<Item>, k: Item)
    requires Sorted(cmp, t)
    ensures Run(cmp, InsertAllAbsent(cmp, t, s), k)
         == if Run(cmp, t, k) != [] then Run(cmp, t, k) else Take(1, Run(cmp, s, k))
    ensures Sorted(cmp, InsertAllAbsent(cmp, t, s))
    decreases |s|
  {
    if s != [] {
      RunOfHead(cmp, s, k);
      hide Run, Sorted, InsertIfAbsent;
      InsertIfAbsentSorted(cmp, t, s[0]);
      RunOfInsertIfAbsent(cmp, t, s[0], k);
      RunOfInsertAllAbsent(cmp, InsertIfAbsent(cmp, t, s[0]), s[1..], k);
    }
  }

  /** The items that are refused on the way. */
  function Refused(cmp: Comparator, t: seq<Item>, s: seq<Item>): (r: seq<Item>)
    decreases |s|
  {
    if s == [] then []
    else (if Present(cmp, t, s[0]) then [s[0]] else []) + Refused(cmp, InsertIfAbsent(cmp, t, s[0]), s[1..])
  }

  lemma {:induction false} RefusedOneMore(cmp: Comparator, t: seq<Item>, s: seq<Item>, x: Item)
    ensures Refused(cmp, t, s + [x])
         == Refused(cmp, t, s) + (if Present(cmp, InsertAllAbsent(cmp, t, s), x) then [x] else [])
    decreases |s|
  {
    hide Present, InsertIfAbsent;
    if s == [] {
      assert ([] + [x])[1..] == [] && [] + [x] == [x];
      assert Refused(cmp, InsertIfAbsent(cmp, t, x), []) == [];
    } else {
      var t' := InsertIfAbsent(cmp, t, s[0]);
      assert (s + [x])[1..] == s[1..] + [x] && (s + [x])[0] == s[0];
      RefusedOneMore(cmp, t', s[1..], x);
      var first := if Present(cmp, t, s[0]) then [s[0]] else [];
      assert Refused(cmp, t, s) == first + Refused(cmp, t', s[1..]);
      assert Refused(cmp, t, s + [x]) == first + Refused(cmp, t', s[1..] + [x]);
      hide Refused;
    }
  }

  /** More items, no fewer refused. */
  lemma {:induction false} RefusedPrefix(cmp: Comparator, t: seq<Item>, s: seq<Item>, k: nat)
    requires k <= |s| && Refused(cmp, t, s[..k]) != []
    ensures Refused(cmp, t, s) != []
    decreases |s|
  {
    hide Present, InsertIfAbsent;
    if k > 0 {
      var t' := InsertIfAbsent(cmp, t, s[0]);
      assert s[..k][0] == s[0] && s[..k][1..] == s[1..][..k - 1];
      if Refused(cmp, t', s[1..][..k - 1]) != [] {
        RefusedPrefix(cmp, t', s[1..], k - 1);
      }
    }
  }

  function Drop<T>(n: nat, s: seq<T>): seq<T> { if n <= |s| then s[n..] else [] }

  /** Of a key that the target has, the whole run of the source is refused; of any other, all but
      the first: each item of the source is either inserted or refused. */
  lemma {:induction false} RunOfRefused(cmp: Comparator, t: seq<Item>, s: seq<Item>, k: Item)
    requires Sorted(cmp, t)
    ensures Run(cmp, Refused(cmp, t, s), k) == if Run(cmp, t, k) != [] then Run(cmp, s, k) else Drop(1, Run(cmp, s, k))
    decreases |s|
  {
    if s != [] {
      var x, t' := s[0], InsertIfAbsent(cmp, t, s[0]);
      RunOfHead(cmp, s, k);
      PresentIffRun(cmp, t, x, k);
      RunOfFirstRefused(cmp, t, s, k);
      hide Run, Sorted, InsertIfAbsent, Present, Refused;
      InsertIfAbsentSorted(cmp, t, x);
      RunOfInsertIfAbsent(cmp, t, x, k);
      RunOfRefused(cmp, t', s[1..], k);
    }
  }

  lemma RunOfFirstRefused(cmp: Comparator, t: seq<Item>, s: seq<Item>, k: Item)
    requires s != []
    ensures var rest := Refused(cmp, InsertIfAbsent(cmp, t, s[0]), s[1..]);
      Run(cmp, Refused(cmp, t, s), k)
        == if Eq(cmp, s[0], k) && Present(cmp, t, s[0]) then [s[0]] + Run(cmp, rest, k) else Run(cmp, rest, k)
  {
    var rest := Refused(cmp, InsertIfAbsent(cmp, t, s[0]), s[1..]);
    RunOfCons(cmp, s[0], rest, k);
    assert [] + rest == rest && [] + Run(cmp, rest, k) == Run(cmp, rest, k);
    hide Run, Present, InsertIfAbsent;
  }

  lemma PresentIffRun(cmp: Comparator, t: seq<Item>, x: Item, k: Item)
    requires Sorted(cmp, t)
    ensures Eq(cmp, x, k) ==> (Present(cmp, t, x) <==> Run(cmp, t, k) != [])
  {
    PresentIffSomeEqual(cmp, t, x);
    RunHas(cmp, t, x);
    if Eq(cmp, x, k) {
      RunOfEqualKeys(cmp, t, x, k);
    }
  }

  lemma {:induction false} InsertAllAbsentStrict(cmp: Comparator, t: seq<Item>, s: seq<Item>)
    requires StrictlySorted(cmp, t)
    ensures StrictlySorted(cmp, InsertAllAbsent(cmp, t, s))
    decreases |s|
  {
    if s != [] {
      InsertIfAbsentKeepsStrict(cmp, t, s[0]);
      InsertAllAbsentStrict(cmp, InsertIfAbsent(cmp, t, s[0]), s[1..]);
    }
  }

  // ----- intersection

  predicate Has(cmp: Comparator, t: seq<Item>, k: Item) {
    exists j :: 0 <= j < |t| && Eq(cmp, t[j], k)
  }

  /** `s` without its leading items equal to `k`. */
  function DropRun(cmp: Comparator, s: seq<Item>, k: Item): (r: seq<Item>)
    ensures |r| <= |s| && r == s[|s| - |r|..]
  {
    if s != [] && Eq(cmp, s[0], k) then DropRun(cmp, s[1..], k) else s
  }

  /** The first item of every run of `s` whose key `t` has too. */
  function Meet(cmp: Comparator, s: seq<Item>, t: seq<Item>): (m: seq<Item>)
    decreases |s|
  {
    if s == [] then []
    else if Has(cmp, t, s[0]) then [s[0]] + Meet(cmp, DropRun(cmp, s[1..], s[0]), t)
    else Meet(cmp, s[1..], t)
  }

  lemma {:induction false} MeetWithout(cmp: Comparator, s: seq<Item>, t: seq<Item>)
    requires t != [] && forall j :: 0 <= j < |s| ==> !Eq(cmp, t[0], s[j])
    ensures Meet(cmp, s, t) == Meet(cmp, s, t[1..])
    decreases |s|
  {
    if s != [] {
      HasTail(cmp, t, s[0]);
      assert !Eq(cmp, t[0], s[0]);
      if Has(cmp, t, s[0]) {
        var r := DropRun(cmp, s[1..], s[0]);
        assert forall j :: 0 <= j < |r| ==> r[j] == s[|s| - |r| + j];
        MeetWithout(cmp, r, t);
      } else {
        assert forall j :: 0 <= j < |s[1..]| ==> s[1..][j] == s[j + 1];
        MeetWithout(cmp, s[1..], t);
      }
    }
  }

  lemma HasTail(cmp: Comparator, t: seq<Item>, k: Item)
    requires t != []
    ensures Has(cmp, t, k) <==> Eq(cmp, t[0], k) || Has(cmp, t[1..], k)
  {
    if j :| 0 <= j < |t| && Eq(cmp, t[j], k) {
      if j > 0 {
        assert t[1..][j - 1] == t[j];
      }
    }
    if j :| 0 <= j < |t[1..]| && Eq(cmp, t[1..][j], k) {
      assert t[j + 1] == t[1..][j];
    }
  }

  lemma {:induction false} MeetOfNone(cmp: Comparator, s: seq<Item>)
    ensures Meet(cmp, s, []) == []
  {
    if s != [] {
      MeetOfNone(cmp, s[1..]);
    }
  }

  /** Dropping a run from a sorted sequence leaves only what is greater. */
  lemma {:induction false} DropRunGreater(cmp: Comparator, s: seq<Item>, k: Item)
    requires Sorted(cmp, s) && AtLeast(cmp, s, k)
    ensures Sorted(cmp, DropRun(cmp, s, k)) && Above(cmp, DropRun(cmp, s, k), k)
  {
    if s != [] {
      if Eq(cmp, s[0], k) {
        SortedTail(cmp, s);
        AtLeastTail(cmp, s, k);
        DropRunGreater(cmp, s[1..], k);
      } else {
        forall j | 0 <= j < |s| ensures Less(cmp, k, s[j]) {
          if j > 0 {
            Transitive(cmp, k, s[0], s[j]);
          }
        }
      }
    }
  }

  lemma RunOfAbove(cmp: Comparator, s: seq<Item>, x: Item, k: Item)
    requires Above(cmp, s, x) && Eq(cmp, x, k)
    ensures Run(cmp, s, k) == []
  {
    forall j | 0 <= j < |s| ensures !Eq(cmp, s[j], k) {
      EqTransfers(cmp, s[j], x, k);
    }
    RunOfNone(cmp, s, k);
  }

  /** Dropping the leading run of `x` empties that run and no other. */
  lemma {:induction false} RunWithoutRun(cmp: Comparator, s: seq<Item>, x: Item, k: Item)
    requires Sorted(cmp, s) && AtLeast(cmp, s, x)
    ensures Run(cmp, DropRun(cmp, s, x), k) == if Eq(cmp, x, k) then [] else Run(cmp, s, k)
  {
    hide Sorted, AtLeast, Above, Run;
    if s != [] && Eq(cmp, s[0], x) {
      SortedTail(cmp, s);
      AtLeastTail(cmp, s, x);
      RunWithoutRun(cmp, s[1..], x, k);
      RunOfHead(cmp, s, k);
      EqTransfers(cmp, k, s[0], x);
    } else if Eq(cmp, x, k) {
      DropRunGreater(cmp, s, x);
      RunOfAbove(cmp, DropRun(cmp, s, x), x, k);
    }
  }

  lemma HasOfEqualKeys(cmp: Comparator, t: seq<Item>, k: Item, l: Item)
    requires Eq(cmp, k, l)
    ensures Has(cmp, t, k) <==> Has(cmp, t, l)
  {
    RunHas(cmp, t, k);
    RunHas(cmp, t, l);
    RunOfEqualKeys(cmp, t, k, l);
  }

  /** The intersection has, for each key both have, the first item of the first one's run. */
  lemma {:induction false} RunOfMeet(cmp: Comparator, s: seq<Item>, t: seq<Item>, k: Item)
    requires Sorted(cmp, s)
    ensures Run(cmp, Meet(cmp, s, t), k) == if Has(cmp, t, k) then Take(1, Run(cmp, s, k)) else []
    decreases |s|
  {
    if s != [] {
      RunOfHead(cmp, s, k);
      SortedTail(cmp, s);
      if Eq(cmp, s[0], k) {
        HasOfEqualKeys(cmp, t, s[0], k);
      }
      if Has(cmp, t, s[0]) {
        var r := DropRun(cmp, s[1..], s[0]);
        DropRunGreater(cmp, s[1..], s[0]);
        RunOfMeet(cmp, r, t, k);
        RunWithoutRun(cmp, s[1..], s[0], k);
        RunOfHead(cmp, [s[0]] + Meet(cmp, r, t), k);
        assert ([s[0]] + Meet(cmp, r, t))[1..] == Meet(cmp, r, t);
      } else {
        RunOfMeet(cmp, s[1..], t, k);
      }
      hide Run, Sorted, Has;
    } else {
      assert Run(cmp, s, k) == [];
    }
  }

  lemma Via(cmp: Comparator, x: Item, y: Item, m: seq<Item>)
    requires cmp(x, y) <= 0 && AtLeast(cmp, m, y)
    ensures AtLeast(cmp, m, x) && (Less(cmp, x, y) ==> Above(cmp, m, x))
  {
    forall j | 0 <= j < |m| ensures cmp(x, m[j]) <= 0 && (Less(cmp, x, y) ==> Less(cmp, x, m[j])) {
      Transitive(cmp, x, y, m[j]);
    }
  }

  lemma StrictCons(cmp: Comparator, x: Item, m: seq<Item>)
    requires StrictlySorted(cmp, m) && Above(cmp, m, x)
    ensures StrictlySorted(cmp, [x] + m) && AtLeast(cmp, [x] + m, x)
  {
  }

  lemma {:induction false} MeetSorted(cmp: Comparator, s: seq<Item>, t: seq<Item>)
    requires Sorted(cmp, s)
    ensures StrictlySorted(cmp, Meet(cmp, s, t))
    ensures s != [] ==> AtLeast(cmp, Meet(cmp, s, t), s[0])
    decreases |s|
  {
    if s != [] {
      SortedTail(cmp, s);
      DropRunGreater(cmp, s[1..], s[0]);
      var r := if Has(cmp, t, s[0]) then DropRun(cmp, s[1..], s[0]) else s[1..];
      MeetSorted(cmp, r, t);
      if r != [] {
        Via(cmp, s[0], r[0], Meet(cmp, r, t));
      }
      hide StrictlySorted, Sorted, Has;
      if Has(cmp, t, s[0]) {
        StrictCons(cmp, s[0], Meet(cmp, r, t));
      }
    }
  }

  lemma RunOfStrict(cmp: Comparator, s: seq<Item>, k: Item)
    requires StrictlySorted(cmp, s)
    ensures |Run(cmp, s, k)| <= 1
  {
    if s != [] {
      RunOfStrict(cmp, s[1..], k);
      RunOfHead(cmp, s, k);
      if Eq(cmp, s[0], k) {
        assert Above(cmp, s[1..], s[0]);
        RunOfAbove(cmp, s[1..], s[0], k);
      }
    }
  }

  /** Inserted into an empty list, a strictly sorted sequence is what the list then holds. */
  lemma InsertAllStrict(cmp: Comparator, m: seq<Item>)
    requires StrictlySorted(cmp, m)
    ensures InsertAll(cmp, [], m) == m
  {
    forall k ensures Reverse(Run(cmp, m, k)) == Run(cmp, m, k) {
      RunOfStrict(cmp, m, k);
      if Run(cmp, m, k) != [] {
        assert Run(cmp, m, k) == [Run(cmp, m, k)[0]];
        ReverseOfHead(Run(cmp, m, k)[0], []);
        assert [Run(cmp, m, k)[0]] + [] == Run(cmp, m, k);
      }
    }
    CopyOnceIff(cmp, m);
  }

  // ----- when a join refuses nothing

  /** No two items are equal. */
  ghost predicate AllDiffer(cmp: Comparator, s: seq<Item>) {
    forall i, j :: 0 <= i < j < |s| ==> !Eq(cmp, s[i], s[j])
  }

  /** No item of `s` has an equal in `t`. */
  ghost predicate NoneIn(cmp: Comparator, t: seq<Item>, s: seq<Item>) {
    forall j :: 0 <= j < |s| ==> !Has(cmp, t, s[j])
  }

  /** The items of `s` all differ, and none has an equal in `t`. */
  ghost predicate AllNew(cmp: Comparator, t: seq<Item>, s: seq<Item>) {
    AllDiffer(cmp, s) && NoneIn(cmp, t, s)
  }

  lemma DifferCons(cmp: Comparator, s: seq<Item>)
    requires s != []
    ensures AllDiffer(cmp, s) <==> AllDiffer(cmp, s[1..]) && !Has(cmp, s[1..], s[0])
  {
    var x, r := s[0], s[1..];
    assert forall j :: 0 <= j < |r| ==> r[j] == s[j + 1];
    forall j | 0 <= j < |r| ensures Eq(cmp, x, r[j]) <==> Eq(cmp, r[j], x) {
      assert Through(x, r[j], x);
    }
    if AllDiffer(cmp, r) && !Has(cmp, r, x) {
      forall i, j | 0 <= i < j < |s| ensures !Eq(cmp, s[i], s[j]) {
        assert s[j] == r[j - 1] && (i > 0 ==> s[i] == r[i - 1]);
      }
    }
    if AllDiffer(cmp, s) {
      forall j | 0 <= j < |r| ensures !Eq(cmp, r[j], x) {
        assert !Eq(cmp, s[0], s[j + 1]);
      }
    }
  }

  lemma HasOfInsert(cmp: Comparator, t: seq<Item>, x: Item, k: Item)
    ensures Has(cmp, Insert(cmp, t, x), k) <==> Eq(cmp, x, k) || Has(cmp, t, k)
  {
    hide Insert, Run;
    RunOfInsert(cmp, t, x, k);
    RunHas(cmp, t, k);
    RunHas(cmp, Insert(cmp, t, x), k);
  }

  lemma NoneInInsert(cmp: Comparator, t: seq<Item>, s: seq<Item>)
    requires s != []
    ensures NoneIn(cmp, Insert(cmp, t, s[0]), s[1..]) && !Has(cmp, t, s[0])
       <==> NoneIn(cmp, t, s) && !Has(cmp, s[1..], s[0])
  {
    var x, r := s[0], s[1..];
    hide Insert, Has;
    assert forall j :: 0 <= j < |r| ==> r[j] == s[j + 1];
    forall j | 0 <= j < |r|
      ensures Has(cmp, Insert(cmp, t, x), r[j]) <==> Eq(cmp, r[j], x) || Has(cmp, t, r[j])
    {
      HasOfInsert(cmp, t, x, r[j]);
      assert Through(x, r[j], x);
    }
    HasMeans(cmp, r, x);
    assert NoneIn(cmp, t, s) <==> !Has(cmp, t, x) && NoneIn(cmp, t, r) by {
      forall j | 0 < j < |s| ensures s[j] == r[j - 1] {
      }
    }
  }

  lemma HasMeans(cmp: Comparator, t: seq<Item>, k: Item)
    ensures Has(cmp, t, k) <==> exists j :: 0 <= j < |t| && Eq(cmp, t[j], k)
  {
  }

  /** A join without duplicates refuses nothing exactly if the items of the source all differ and
      the target has none equal to any of them. */
  lemma {:induction false} NothingRefusedIff(cmp: Comparator, t: seq<Item>, s: seq<Item>)
    requires Sorted(cmp, t)
    ensures Refused(cmp, t, s) == [] <==> AllNew(cmp, t, s)
    decreases |s|
  {
    if s != [] {
      var x := s[0];
      PresentIffSomeEqual(cmp, t, x);
      InsertKeepsSorted(cmp, t, x);
      hide Insert, Present, Sorted, AllDiffer;
      DifferCons(cmp, s);
      NoneInInsert(cmp, t, s);
      if !Present(cmp, t, x) {
        NothingRefusedIff(cmp, Insert(cmp, t, x), s[1..]);
      } else {
        assert Has(cmp, t, s[0]);
      }
    }
  }

  /** If the source is sorted by the same comparator: exactly if it is strictly sorted and has no
      item equal to one of the target. */
  lemma NothingRefusedSorted(cmp: Comparator, t: seq<Item>, s: seq<Item>)
    requires Sorted(cmp, t) && Sorted(cmp, s)
    ensures Refused(cmp, t, s) == [] <==> StrictlySorted(cmp, s) && forall j :: 0 <= j < |s| ==> !Has(cmp, t, s[j])
  {
    NothingRefusedIff(cmp, t, s);
    hide Refused, Has;
  }

  /** A list joined to an equal one. */
  lemma RefusedHere(cmp: Comparator, x: Item)
    ensures Refused(cmp, [x], [x]) == [x]
  {
    assert Through(x, x, x) && Eq(cmp, x, x);
    assert Present(cmp, [x], x);
    assert [x][1..] == [];
  }

  // ----- the steps of the merge that computes an intersection

  lemma {:induction false} MeetWithoutRun(cmp: Comparator, s: seq<Item>, t: seq<Item>, k: Item)
    requires Above(cmp, s, k)
    ensures Meet(cmp, s, DropRun(cmp, t, k)) == Meet(cmp, s, t)
    decreases |t|
  {
    if t != [] && Eq(cmp, t[0], k) {
      forall j | 0 <= j < |s| ensures !Eq(cmp, t[0], s[j]) {
        Transitive(cmp, t[0], k, s[j]);
      }
      MeetWithout(cmp, s, t);
      MeetWithoutRun(cmp, s, t[1..], k);
    }
  }

  /** Equal heads: the first one's goes into the intersection and both runs are passed. */
  lemma MeetEqual(cmp: Comparator, s: seq<Item>, t: seq<Item>)
    requires s != [] && t != [] && Sorted(cmp, s) && Eq(cmp, s[0], t[0])
    ensures Meet(cmp, s, t) == [s[0]] + Meet(cmp, DropRun(cmp, s[1..], s[0]), DropRun(cmp, t[1..], t[0]))
  {
    var r := DropRun(cmp, s[1..], s[0]);
    SortedTail(cmp, s);
    DropRunGreater(cmp, s[1..], s[0]);
    assert Through(t[0], s[0], s[0]) && Eq(cmp, t[0], s[0]);
    assert Has(cmp, t, s[0]);
    forall j | 0 <= j < |r| ensures Less(cmp, t[0], r[j]) {
      Transitive(cmp, t[0], s[0], r[j]);
    }
    assert DropRun(cmp, t, t[0]) == DropRun(cmp, t[1..], t[0]);
    MeetWithoutRun(cmp, r, t, t[0]);
  }

  /** A smaller head of the first one has no counterpart. */
  lemma MeetLess(cmp: Comparator, s: seq<Item>, t: seq<Item>)
    requires s != [] && t != [] && Sorted(cmp, t) && Less(cmp, s[0], t[0])
    ensures Meet(cmp, s, t) == Meet(cmp, s[1..], t)
  {
    forall j | 0 <= j < |t| ensures !Eq(cmp, t[j], s[0]) {
      if j > 0 {
        Transitive(cmp, s[0], t[0], t[j]);
      }
    }
  }

  /** Nor does a smaller head of the second one. */
  lemma MeetGreater(cmp: Comparator, s: seq<Item>, t: seq<Item>)
    requires s != [] && t != [] && Sorted(cmp, s) && Less(cmp, t[0], s[0])
    ensures Meet(cmp, s, t) == Meet(cmp, s, t[1..])
  {
    forall j | 0 <= j < |s| ensures !Eq(cmp, t[0], s[j]) {
      if j > 0 {
        Transitive(cmp, t[0], s[0], s[j]);
      }
    }
    MeetWithout(cmp, s, t);
  }

  /** What the merge computes from any two sequences, in whatever order they are. */
  function Merge(cmp: Comparator, s: seq<Item>, t: seq<Item>): (m: seq<Item>)
    decreases |s| + |t|
  {
    if s == [] || t == [] then []
    else if Eq(cmp, s[0], t[0]) then [s[0]] + Merge(cmp, DropRun(cmp, s[1..], s[0]), DropRun(cmp, t[1..], t[0]))
    else if Less(cmp, s[0], t[0]) then Merge(cmp, s[1..], t)
    else Merge(cmp, s, t[1..])
  }

  /** Every item with a greater one before it has an equal before that one: taken once each, at
      their first places, the keys come in order. */
  ghost predicate FirstsInOrder(cmp: Comparator, t: seq<Item>) {
    forall i, j :: 0 <= i < j < |t| && Less(cmp, t[j], t[i]) ==> Has(cmp, t[..i], t[j])
  }

  /** All items before place `n` are less than what `s` starts with. */
  ghost predicate Passed(cmp: Comparator, t: seq<Item>, n: nat, s: seq<Item>)
    requires n <= |t|
  {
    s != [] ==> forall p :: 0 <= p < n ==> Less(cmp, t[p], s[0])
  }

  lemma PassedTail(cmp: Comparator, t: seq<Item>, n: nat, s: seq<Item>, s': seq<Item>)
    requires n <= |t| && Sorted(cmp, s) && Passed(cmp, t, n, s)
    requires |s'| <= |s| && s' == s[|s| - |s'|..]
    ensures Passed(cmp, t, n, s')
  {
    if s' != [] {
      assert s'[0] == s[|s| - |s'|];
      forall p | 0 <= p < n ensures Less(cmp, t[p], s'[0]) {
        if |s'| < |s| {
          Transitive(cmp, t[p], s[0], s'[0]);
        }
      }
    }
  }

  /** A smaller head of the first one has no counterpart left in the second. */
  lemma NotAhead(cmp: Comparator, s: seq<Item>, t: seq<Item>, n: nat)
    requires n < |t| && s != [] && FirstsInOrder(cmp, t) && Passed(cmp, t, n, s) && Less(cmp, s[0], t[n])
    ensures !Has(cmp, t[n..], s[0])
  {
    if j :| 0 <= j < |t[n..]| && Eq(cmp, t[n..][j], s[0]) {
      var x := t[n + j];
      assert x == t[n..][j];
      if j > 0 {
        Transitive(cmp, x, s[0], t[n]);
        assert Has(cmp, t[..n], x);
        var p :| 0 <= p < n && Eq(cmp, t[..n][p], x);
        EqTransfers(cmp, t[p], x, s[0]);
      }
    }
  }

  lemma {:induction false} DropRunDrops(cmp: Comparator, s: seq<Item>, k: Item)
    ensures forall j :: 0 <= j < |s| - |DropRun(cmp, s, k)| ==> Eq(cmp, s[j], k)
  {
    if s != [] && Eq(cmp, s[0], k) {
      DropRunDrops(cmp, s[1..], k);
      assert forall j :: 0 < j < |s| ==> s[j] == s[1..][j - 1];
    }
  }

  /** With the run at place `n` nothing greater than the key is passed. */
  lemma PassedWithRun(cmp: Comparator, t: seq<Item>, n: nat, k: Item, m: nat)
    requires n < m <= |t| && Eq(cmp, k, t[n]) && (forall p :: 0 <= p < n ==> Less(cmp, t[p], k))
    requires forall p :: n < p < m ==> Eq(cmp, t[p], t[n])
    ensures forall p :: 0 <= p < m ==> cmp(t[p], k) <= 0
  {
    forall p | n <= p < m ensures cmp(t[p], k) <= 0 {
      assert Through(t[n], t[n], t[n]) && Eq(cmp, t[p], t[n]);
      EqTransfers(cmp, t[p], k, t[n]);
    }
  }

  /** Both runs of equal heads are passed. */
  lemma PassedRun(cmp: Comparator, s: seq<Item>, t: seq<Item>, n: nat)
    requires n < |t| && s != [] && Sorted(cmp, s) && Passed(cmp, t, n, s) && Eq(cmp, s[0], t[n])
    ensures var s', t' := DropRun(cmp, s[1..], s[0]), DropRun(cmp, t[n..][1..], t[n]);
      n + 1 <= |t| - |t'| && t' == t[|t| - |t'|..] && Sorted(cmp, s') && Passed(cmp, t, |t| - |t'|, s')
  {
    hide Sorted, DropRun;
    assert t[n..][1..] == t[n + 1..];
    var s', t' := DropRun(cmp, s[1..], s[0]), DropRun(cmp, t[n + 1..], t[n]);
    var m := |t| - |t'|;
    SortedTail(cmp, s);
    DropRunGreater(cmp, s[1..], s[0]);
    DropRunDrops(cmp, t[n + 1..], t[n]);
    forall p | n < p < m ensures Eq(cmp, t[p], t[n]) {
      assert t[p] == t[n + 1..][p - n - 1];
    }
    PassedWithRun(cmp, t, n, s[0], m);
    if s' != [] {
      forall p | 0 <= p < m ensures Less(cmp, t[p], s'[0]) {
        Transitive(cmp, t[p], s[0], s'[0]);
      }
    }
  }

  /** The merge from the places that it has come to. */
  lemma {:induction false} MergeOfFirsts(cmp: Comparator, s: seq<Item>, t: seq<Item>, n: nat)
    requires n <= |t| && Sorted(cmp, s) && FirstsInOrder(cmp, t) && Passed(cmp, t, n, s)
    ensures Merge(cmp, s, t[n..]) == Meet(cmp, s, t[n..])
    decreases |s| + |t| - n
  {
    hide Meet, Sorted, Passed, FirstsInOrder, Has, DropRun;
    var u := t[n..];
    if u == [] || s == [] {
      MeetOfNone(cmp, s);
      MeetOfNothing(cmp, u);
    } else {
      assert u[0] == t[n] && u[1..] == t[n + 1..];
      if Eq(cmp, s[0], u[0]) {
        PassedRun(cmp, s, t, n);
        MeetEqual(cmp, s, u);
        MergeOfFirsts(cmp, DropRun(cmp, s[1..], s[0]), t, |t| - |DropRun(cmp, u[1..], u[0])|);
      } else if Less(cmp, s[0], u[0]) {
        NotAhead(cmp, s, t, n);
        PassedTail(cmp, t, n, s, s[1..]);
        SortedTail(cmp, s);
        MeetSkips(cmp, s, u);
        MergeOfFirsts(cmp, s[1..], t, n);
      } else {
        MeetGreater(cmp, s, u);
        PassedMore(cmp, t, n, s);
        MergeOfFirsts(cmp, s, t, n + 1);
      }
    }
  }

  lemma MeetSkips(cmp: Comparator, s: seq<Item>, t: seq<Item>)
    requires s != [] && !Has(cmp, t, s[0])
    ensures Meet(cmp, s, t) == Meet(cmp, s[1..], t)
  {
  }

  lemma MeetOfNothing(cmp: Comparator, t: seq<Item>)
    ensures Meet(cmp, [], t) == []
  {
  }

  lemma PassedMore(cmp: Comparator, t: seq<Item>, n: nat, s: seq<Item>)
    requires n < |t| && s != [] && Passed(cmp, t, n, s) && Less(cmp, t[n], s[0])
    ensures Passed(cmp, t, n + 1, s)
  {
  }

  /** It is the intersection when both are sorted by the comparator that it uses. */
  lemma MergeIsMeet(cmp: Comparator, s: seq<Item>, t: seq<Item>)
    requires Sorted(cmp, s) && Sorted(cmp, t)
    ensures Merge(cmp, s, t) == Meet(cmp, s, t)
  {
    assert t[0..] == t;
    MergeOfFirsts(cmp, s, t, 0);
  }

  /** A single item is given up at the first greater one. */
  lemma {:induction false} MergeGivesUp(cmp: Comparator, x: Item, t: seq<Item>, i: nat)
    requires i < |t| && Less(cmp, x, t[i]) && forall p :: 0 <= p < i ==> !Eq(cmp, t[p], x)
    ensures Merge(cmp, [x], t) == []
    decreases i
  {
    assert [x][1..] == [];
    assert Eq(cmp, x, t[0]) ==> Eq(cmp, t[0], x) by {
      assert Through(t[0], x, x);
    }
    if !Less(cmp, x, t[0]) {
      assert forall p :: 0 <= p < |t[1..]| ==> t[1..][p] == t[p + 1];
      MergeGivesUp(cmp, x, t[1..], i - 1);
    }
  }

  /** An item with a greater one before it and no equal before that one is missed. */
  lemma MergeMissesOne(cmp: Comparator, t: seq<Item>, i: nat, j: nat)
    requires i < j < |t| && Less(cmp, t[j], t[i]) && !Has(cmp, t[..i], t[j])
    ensures Sorted(cmp, [t[j]]) && Merge(cmp, [t[j]], t) == [] && Meet(cmp, [t[j]], t) == [t[j]]
  {
    var x := t[j];
    forall p | 0 <= p < i ensures !Eq(cmp, t[p], x) {
      assert t[p] == t[..i][p];
    }
    hide Merge;
    MergeGivesUp(cmp, x, t, i);
    FirstIsHad(cmp, x, t[j..]);
    HasOfSuffix(cmp, t, j, x);
    hide Has;
    MeetOfOne(cmp, x, t);
  }

  lemma MeetOfOne(cmp: Comparator, x: Item, t: seq<Item>)
    requires Has(cmp, t, x)
    ensures Meet(cmp, [x], t) == [x]
  {
    assert [x][1..] == [];
    assert Meet(cmp, DropRun(cmp, [x][1..], x), t) == [];
  }

  /** The merge finds the intersection with every sorted first sequence exactly if the keys of the
      second one come in order at their first places. */
  lemma MergeIsMeetIff(cmp: Comparator, t: seq<Item>)
    ensures (forall s :: Sorted(cmp, s) ==> Merge(cmp, s, t) == Meet(cmp, s, t)) <==> FirstsInOrder(cmp, t)
  {
    hide Merge, Meet, Sorted, Has;
    if FirstsInOrder(cmp, t) {
      hide FirstsInOrder;
      assert t[0..] == t;
      forall s | Sorted(cmp, s) ensures Merge(cmp, s, t) == Meet(cmp, s, t) {
        MergeOfFirsts(cmp, s, t, 0);
      }
    } else {
      var i, j :| 0 <= i < j < |t| && Less(cmp, t[j], t[i]) && !Has(cmp, t[..i], t[j]);
      MergeMissesOne(cmp, t, i, j);
    }
  }

  lemma HasOfSuffix(cmp: Comparator, t: seq<Item>, n: nat, x: Item)
    requires n <= |t| && Has(cmp, t[n..], x)
    ensures Has(cmp, t, x)
  {
    var j :| 0 <= j < |t[n..]| && Eq(cmp, t[n..][j], x);
    assert t[n + j] == t[n..][j];
  }

  /** Whatever the order, it yields only items of the first sequence that the second one has an
      equal of. */
  lemma {:induction false} MergeSound(cmp: Comparator, s: seq<Item>, t: seq<Item>, x: Item)
    requires x in Merge(cmp, s, t)
    ensures x in s && Has(cmp, t, x)
    decreases |s| + |t|
  {
    hide Has, DropRun;
    if Eq(cmp, s[0], t[0]) {
      var s', t' := DropRun(cmp, s[1..], s[0]), DropRun(cmp, t[1..], t[0]);
      if x in Merge(cmp, s', t') {
        MergeSound(cmp, s', t', x);
        assert s' == s[|s| - |s'|..] && t' == t[|t| - |t'|..];
        HasOfSuffix(cmp, t, |t| - |t'|, x);
      } else {
        EqTransfers(cmp, t[0], s[0], s[0]);
        FirstIsHad(cmp, s[0], t);
      }
    } else if Less(cmp, s[0], t[0]) {
      MergeSound(cmp, s[1..], t, x);
    } else {
      MergeSound(cmp, s, t[1..], x);
      HasOfSuffix(cmp, t, 1, x);
    }
  }

  lemma FirstIsHad(cmp: Comparator, x: Item, t: seq<Item>)
    requires t != [] && Eq(cmp, x, t[0])
    ensures Has(cmp, t, x)
  {
    assert Through(t[0], x, x) && Eq(cmp, t[0], x);
  }

  /** But of a second sequence in another order it may miss some. */
  lemma MergeMisses(cmp: Comparator, x: Item, y: Item)
    requires Less(cmp, x, y)
    ensures Merge(cmp, [x], [y, x]) == [] && Meet(cmp, [x], [y, x]) == [x]
  {
    assert [x][1..] == [];
    FirstIsHad(cmp, x, [x]);
    assert [y, x][1..] == [x];
    HasOfSuffix(cmp, [y, x], 1, x);
    assert DropRun(cmp, [], x) == [];
  }
}
