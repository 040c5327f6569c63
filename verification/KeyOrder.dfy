/**
 What the list is as a value: a sequence kept sorted by the client's comparator, in which
 equal items may repeat.  The comparator is any total preorder.
 */
module KeyOrder {
  import opened Towers

  /** Whatever the client's comparator looks at in a node. */
  type Item(0, ==, !new)

  /** Marks the triples at which transitivity is wanted; always true. */
  ghost predicate Through(x: Item, y: Item, z: Item) { true }

  /** Only the sign of the comparator is ever used. */
  ghost predicate TotalPreorder(f: (Item, Item) -> int) {
    && (forall x, y :: f(x, y) < 0 <==> f(y, x) > 0)
    && (forall x, y, z {:trigger Through(x, y, z)} ::
          Through(x, y, z) && f(x, y) <= 0 && f(y, z) <= 0 ==> f(x, z) <= 0)
  }

  type Comparator = f: (Item, Item) -> int | TotalPreorder(f)
    witness (x: Item, y: Item) => 0

  lemma Transitive(cmp: Comparator, x: Item, y: Item, z: Item)
    requires cmp(x, y) <= 0 && cmp(y, z) <= 0
    ensures cmp(x, z) <= 0
    ensures cmp(x, y) < 0 || cmp(y, z) < 0 ==> cmp(x, z) < 0
  {
    assert Through(x, y, z) && Through(y, z, x) && Through(z, x, y);
  }

  predicate Less(cmp: Comparator, x: Item, y: Item) { cmp(x, y) < 0 }

  predicate Eq(cmp: Comparator, x: Item, y: Item) { cmp(x, y) == 0 }

  ghost predicate Sorted(cmp: Comparator, s: seq<Item>) {
    forall i, j :: 0 <= i < j < |s| ==> cmp(s[i], s[j]) <= 0
  }

  ghost predicate StrictlySorted(cmp: Comparator, s: seq<Item>) {
    forall i, j :: 0 <= i < j < |s| ==> cmp(s[i], s[j]) < 0
  }

  /** The number of leading items less than `k`: where `k` belongs, before its equals. */
  function LowerBound(cmp: Comparator, s: seq<Item>, k: Item): (r: nat)
    ensures r <= |s|
    ensures forall j :: 0 <= j < r ==> Less(cmp, s[j], k)
    ensures r < |s| ==> !Less(cmp, s[r], k)
  {
    if s == [] || !Less(cmp, s[0], k) then 0 else 1 + LowerBound(cmp, s[1..], k)
  }

  /** In a sorted sequence nothing from the bound on is less than `k`, and the items equal
      to `k` are one run starting at the bound. */
  lemma LowerBoundSplits(cmp: Comparator, s: seq<Item>, k: Item)
    requires Sorted(cmp, s)
    ensures forall j :: LowerBound(cmp, s, k) <= j < |s| ==> !Less(cmp, s[j], k)
    ensures forall i, j :: LowerBound(cmp, s, k) <= i < j < |s| && Eq(cmp, s[j], k) ==> Eq(cmp, s[i], k)
  {
    var r := LowerBound(cmp, s, k);
    forall j | r <= j < |s| ensures !Less(cmp, s[j], k) {
      if r < j && Less(cmp, s[j], k) {
        Transitive(cmp, s[r], s[j], k);
      }
    }
    forall i, j | r <= i < j < |s| && Eq(cmp, s[j], k) ensures Eq(cmp, s[i], k) {
      Transitive(cmp, s[i], s[j], k);
    }
  }

  /** The bound is the only position with smaller items before it and none after. */
  lemma LowerBoundUnique(cmp: Comparator, s: seq<Item>, k: Item, r: nat)
    requires r <= |s|
    requires forall j :: 0 <= j < r ==> Less(cmp, s[j], k)
    requires r < |s| ==> !Less(cmp, s[r], k)
    ensures r == LowerBound(cmp, s, k)
  {
  }

  /** Insertion: immediately before the first item not less than the new one. */
  function Insert(cmp: Comparator, s: seq<Item>, k: Item): (t: seq<Item>)
  {
    InsertAt(s, LowerBound(cmp, s, k), k)
  }

  predicate Present(cmp: Comparator, s: seq<Item>, k: Item) {
    var r := LowerBound(cmp, s, k);
    r < |s| && Eq(cmp, s[r], k)
  }

  /** Insertion that refuses an item equal to one already there. */
  function InsertIfAbsent(cmp: Comparator, s: seq<Item>, k: Item): (t: seq<Item>)
  {
    if Present(cmp, s, k) then s else Insert(cmp, s, k)
  }

  /** Deletion: the first item equal to the probe, if any. */
  function Delete(cmp: Comparator, s: seq<Item>, k: Item): (t: seq<Item>)
  {
    if Present(cmp, s, k) then RemoveAt(s, LowerBound(cmp, s, k)) else s
  }

  lemma PresentIffSomeEqual(cmp: Comparator, s: seq<Item>, k: Item)
    requires Sorted(cmp, s)
    ensures Present(cmp, s, k) <==> exists j :: 0 <= j < |s| && Eq(cmp, s[j], k)
  {
    LowerBoundSplits(cmp, s, k);
    var r := LowerBound(cmp, s, k);
    forall j | 0 <= j < |s| && Eq(cmp, s[j], k) ensures Present(cmp, s, k) {
      if r < j {
        assert Eq(cmp, s[r], k);
      }
    }
  }

  lemma InsertKeepsSorted(cmp: Comparator, s: seq<Item>, k: Item)
    requires Sorted(cmp, s)
    ensures Sorted(cmp, Insert(cmp, s, k))
    ensures multiset(Insert(cmp, s, k)) == multiset(s) + multiset{k}
  {
    LowerBoundSplits(cmp, s, k);
    var r, t := LowerBound(cmp, s, k), Insert(cmp, s, k);
    forall i, j | 0 <= i < j < |t| ensures cmp(t[i], t[j]) <= 0 {
      var x := if i < r then s[i] else if i == r then k else s[i - 1];
      var y := if j < r then s[j] else if j == r then k else s[j - 1];
      assert t[i] == x && t[j] == y;
    }
    InsertAtContents(s, r, k);
  }

  lemma SortedWithout(cmp: Comparator, s: seq<Item>, q: nat, k: Item, t: seq<Item>)
    requires Inserted(s, q, k, t) && Sorted(cmp, t)
    ensures Sorted(cmp, s)
  {
    forall i, j | 0 <= i < j < |s| ensures cmp(s[i], s[j]) <= 0 {
      assert s[i] == t[Raise(i, q)] && s[j] == t[Raise(j, q)];
    }
  }

  lemma InsertIfAbsentKeepsStrict(cmp: Comparator, s: seq<Item>, k: Item)
    requires StrictlySorted(cmp, s)
    ensures StrictlySorted(cmp, InsertIfAbsent(cmp, s, k))
  {
    var r := LowerBound(cmp, s, k);
    if !Present(cmp, s, k) {
      forall j | r <= j < |s| ensures cmp(k, s[j]) < 0 {
        if r < j {
          Transitive(cmp, k, s[r], s[j]);
        }
      }
    }
  }

  lemma DeleteKeepsSorted(cmp: Comparator, s: seq<Item>, k: Item)
    requires Sorted(cmp, s)
    ensures Sorted(cmp, Delete(cmp, s, k))
  {
  }

  /** Deleting undoes inserting, even when equal items were there before. */
  lemma DeleteUndoesInsert(cmp: Comparator, s: seq<Item>, k: Item)
    ensures Delete(cmp, Insert(cmp, s, k), k) == s
  {
    var r := LowerBound(cmp, s, k);
    var t := Insert(cmp, s, k);
    assert forall j :: 0 <= j < r ==> t[j] == s[j];
    assert t[r] == k;
    LowerBoundUnique(cmp, t, k, r);
    RemoveUndoesInsert(s, r, k);
  }
}
