# MySKL, verified

MySKL is a skip list library in C.  A list is a header and a number of nodes; every node owns an
array of forward pointers, one for each level that its tower reaches, and the header, which also
stands for NIL, closes each level into a ring.  Lists are ordered by the client's comparator, may
hold equal nodes, and are protected by a reader/writer lock; the height of a new tower comes from
a Mersenne Twister.  This project models these three parts, in the single-linked and the doubly
linked build, with the default level generator, and proves what they promise.

How the model is laid out:

- `Towers.dfy` – the index arithmetic of towers: on level `i` the successor of a position is the
  next tower that reaches above `i`, or the header.  `KeyOrder.dfy` – the list as a value: a
  sequence sorted by any total preorder.  `Levels.dfy` – from a 32-bit draw to a height.
- `Links.dfy`, `SkipLists.dfy` – the memory.  A ghost `View` of a list (its nodes in level-0 order,
  the array that each owns, the heights) fixes every pointer; `SkipList.Valid` says that memory and
  view agree, that level 0 is sorted, and that count, tail and current level are exact.  Both
  insertions, deletion and search are the source's loops over pointer arrays, proved against it.
  The descents dereference the array of recorded nodes only where it has been written, and compare
  only real nodes: `IsLess`, `IsEq`, `Bulk.Same` and `Bulk.Precedes` require that neither side
  is a header.
- `Doubles.dfy` – the backward pointers.  A list whose `back` is not null is one of the doubly
  linked build, and each operation then writes them where the source does; `SkipList.Ready` says
  that on every level they lead back to the last tower before, all round the ring.
- `Blocks.dfy` – the count of memory blocks, which every allocation and every release goes through:
  a list carries it, and each contract says how many blocks have been taken and given back.
- `Mt19937.dfy` – the generator in place and the recurrence it refines (ISO/IEC 14882:2011,
  section 26.5.3.2, with the parameters of section 26.5.5).  A list owns one, seeded as the source
  seeds it, and draws from it the height of each new node.
- `Shapes.dfy` – what the invariant means for the memory as a whole: every level is the list
  without the low towers, both insertions link alike, forward and backward pointers are inverse, a
  deletion undoes an insertion pointer for pointer.  `Histories.dfy` – any sequence of insertions,
  updates, deletions and searches answers as the sorted sequence would, and the calls alone
  determine the shape.
- `Runs.dfy`, `Bulk.dfy` – copying, joining and intersecting.  A sorted sequence is determined by
  its runs of equal items, and each bulk operation is described by what it does to every run.
- `Cursors.dfy` – iterators as values, going on and going back.  `Iterators.dfy` – the same in memory,
  walking a level, and the search for all equal nodes.
- `Memory.dfy` – any number of lists side by side and the blocks they hold.  `Clients.dfy` – a client
  with lists and iterators: what any sequence of calls, copies, joins and intersections included,
  answers and leaves behind, and where its blocks are.
- `Threads.dfy`, `Locks.dfy` – the two reader/writer locks, as code and as a transition system over
  any number of threads: a section between taking and releasing the mutex is one step, waiting on a
  condition variable ends a section, a signal wakes at least one sleeper if there is one, and
  sleepers may also wake of themselves (POSIX.1, IEEE Std 1003.1, `pthread_cond_wait`).
- `Concurrent.dfy` – a list shared by threads, each call of which takes the lock.  A call is known to
  do its work (as proved in `Histories.dfy`) only if nobody else wrote while it ran, and a writer
  may write anything while it is inside; the lock makes every run linear all the same.

Where the code differs from its documentation the model follows the code:

- `include/myskl.h:225-232` says that `MySKLinsertUPD_ALL` replaces all equal nodes.  The loop in
  `src/skl_ins.c:70-73` tests the node after the one it is on, so it usually stops one short, and at
  the end of the list it compares the header; what the comparator makes of the header is a
  parameter (`nilEq`).  `Shapes.UpdatesAllIff` says exactly when all equal nodes and no others are
  updated; `Shapes.SecondLeftOut` makes three insertions and an update that misses a node.
- `src/private/skl_rand.c:89-93` says that only the first 624 words of a seed array are taken.  The
  loop takes all of them, and `Mt19937.KeyWordMatters` proves that each matters.
- An iterator over the equal nodes stops at the node after them, but only if it meets that node: on
  a higher level it may walk past it.  `Iterators.PassesEndIff` says exactly when, and
  `Iterators.WalksPastHere` makes a list and the calls.
- In the doubly linked build an iterator checks the level of a call against the tower it has come to,
  and reads an array that may be another node's.  `Cursors.AfterGoOn` and `Cursors.AfterGoBack` say
  exactly when turning round reads outside that array, `Iterators.ReadsOutside` makes the calls, and
  `Cursors.OneLevelSafe` says that on one level it never happens.  An iterator over equal nodes has
  no array to go back from until it has gone on (`src/skl_search.c:29-42`).
- `include/myskl.h:168-171` calls the node destroyer optional.  A join without duplicates calls it for
  each copy that is refused without asking whether there is one (`src/skl_join.c:72-73` tests the
  list instead).  `Bulk.Join` says exactly when it calls a null function, and `Clients.JoinBreaks`
  makes the calls.
- An intersection compares by the first list's comparator, and may miss common items of a second list in
  another order.  `Runs.MergeIsMeetIff` says for exactly which second lists it never does.
- `include/private/skl_threads.h:73-80` says that swapping the two cases of a writer's exit gives
  readers the preference.  Readers would still wait behind sleeping writers that nobody wakes:
  `Locks.SwappedExitIff` says exactly when that happens, `Locks.SwappedExitDies` gives a run that comes
  to it, and `Locks.DeadForEver` says that nobody gets in from then on.

## Model

| member | source | states |
|---|---|---|
| Towers.NextAfterInsert | src/skl_ins.c:167-170 | a new tower redirects, on each level it reaches, exactly the link of the last tower before it; every other link keeps its target |
| Towers.NextOfInserted | src/skl_ins.c:243-244 | the new tower leads where that link led before |
| Towers.PrevAfterInsert | src/skl_del.c:51-69 | the recorded predecessors are the same with and without the node, so the records taken before an unlinking hold after it |
| Towers.BeforeAfterInsert | src/skl_ins.c:177-180 | round the ring of a level, a new tower changes exactly the backward link of the tower that follows it |
| Towers.NextThenBefore | src/skl_ins.c:177-180 | leading back undoes leading on, from every tower and from the header |
| Towers.BeforeThenNext | src/skl_ins.c:177-180 | and the other way round |
| Towers.WalkIsReaching | include/private/skl_priv.h:215-216 | following successors on a level visits exactly the towers that reach above it, in order |
| KeyOrder.LowerBoundSplits | src/skl_ins.c:236-239 | nothing from the place of a key on is less than it, and the items equal to it are one run that starts there |
| KeyOrder.InsertKeepsSorted | src/skl_ins.c:229-251 | inserting keeps the order and adds exactly the new item |
| KeyOrder.InsertIfAbsentKeepsStrict | src/skl_ins.c:315-318 | refusing equal keys keeps a list without duplicates free of them |
| KeyOrder.DeleteKeepsSorted | src/skl_del.c:88-102 | deleting keeps the order |
| KeyOrder.DeleteUndoesInsert | src/skl_del.c:75-116 | deleting takes out the item inserted last, even among equal ones |
| KeyOrder.PresentIffSomeEqual | src/skl_ins.c:314-315 | looking only at the place of a key finds out whether any item is equal to it |
| Levels.GenLevel | src/skl_gen.c:55-78 | the loop yields one more than the leading zeros of the draw, capped by the maximum level and by one more than the present one; doubling never overflows |
| Levels.LevelAboveIff | src/skl_gen.c:69-73 | a level above k is given exactly when the caps allow it and the draw has k leading zeros |
| Levels.Threshold | src/skl_gen.c:71 | comparing with the quotient is comparing with a power of two |
| Levels.Distribution | src/skl_gen.c:63-76 | exactly 2^(32-k) of the 2^32 draws give a level above k |
| Links.LinkOneLevel | src/skl_ins.c:167-170 | the two assignments turn a correct level without the node into a correct level with it, and keep every other level as it was |
| Links.UnlinkOneLevel | src/skl_del.c:94-100 | the assignment turns a correct level with the node into one without it |
| Links.WhoLeadsTo | src/skl_del.c:94 | a recorded node leads to the victim on a level exactly if the victim reaches the level, so the loop's break fires at its height |
| Links.LevelAbove | src/skl_ins.c:241 | a level the tower does not reach is correct with it exactly if it is without it |
| SkipLists.Init | src/skl_init.c:130-148 | a level bound outside 1 to 20 gives no list and takes no memory, any other an empty valid one, its generator at the start of the seeding with 0x1571, for 4 blocks, or 5 in the doubly linked build |
| SkipLists.SkipList.constructor | src/skl_init.c:31-52 | the invariant holds from the start, with the header alone closing every level |
| SkipLists.SkipList.Advance | src/skl_ins.c:236-239 | a descent moves on each level to the last tower before the key's place, and ends |
| SkipLists.SkipList.NewNode | src/skl_ins.c:88-114 | a new array of the given height, every pointer the header, in both directions where the build has both; one block for each array |
| SkipLists.SkipList.LinkDown | src/skl_ins.c:226-251 | the one-pass descent leaves every level correct with the new node, in both directions |
| SkipLists.SkipList.InsertPlain | src/skl_ins.c:202-262 | the whole invariant is kept, backward pointers included; the node goes immediately before the first one not less than it, at the height that the next number drawn gives; the level becomes the larger of the two |
| SkipLists.HeightIsDrawn | src/skl_gen.c:55-78 | the height that each contract below gives a new node is the one that the number drawn, the bound and the present level allow, written out for every k |
| SkipLists.SkipList.Descend | src/skl_ins.c:288-314 | what is recorded on each level is the last node before the key that reaches it, and the descent stops in front of the first node not less |
| SkipLists.SkipList.RecordAbove | src/skl_ins.c:151-161 | with the header recorded for the new levels, the records are right up to the new height |
| SkipLists.SkipList.LinkUp | src/skl_ins.c:167-181 | relinking the recorded nodes leaves every level correct with the new node, in both directions; every record read was written |
| SkipLists.SkipList.AddNodeAndUpdateLinks | src/skl_ins.c:126-192 | the same effect as the one-pass insertion; the new tower has at most one level more than the list had, and more than k exactly if the bound and the list allow it and the next number drawn is below 2 to the 32 - k |
| SkipLists.SkipList.InsertI | src/skl_ins.c:273-337 | the outcome of each mode: a new node in its place, or with an equal node there a refusal or calls of the update function, with nothing drawn or allocated and the list untouched |
| SkipLists.SkipList.UpdateNodeData | src/skl_ins.c:43-77 | which nodes of the run the update function is called on, as written |
| SkipLists.SkipList.InsertAD | src/skl_ins.c:351-368 | always inserts, in its place, a tower of the height just described |
| SkipLists.SkipList.InsertND | src/skl_ins.c:372-388 | inserts exactly if no equal node is there; otherwise the list is untouched |
| SkipLists.SkipList.UnlinkAll | src/skl_del.c:88-102 | afterwards no level leads to the victim, forward or back, and every level is correct |
| SkipLists.SkipList.AdjustCurLevel | src/skl_del.c:153-165 | the level becomes exactly the height of the tallest tower left, at least 1 |
| SkipLists.SkipList.DestroyNode | src/skl_del.c:128-142 | the node's arrays are freed, its backward pointers are gone, and the node goes to the node destroyer if there is one |
| SkipLists.SkipList.DeleteI | src/skl_del.c:42-116 | exactly the first node equal to the probe is taken out and destroyed, with invariant, backward pointers, tail, level and count exact and its blocks freed; if there is none, or its data may not be destroyed and deletion is not forced, the list is untouched and nothing is freed |
| SkipLists.SkipList.Delete | src/skl_del.c:179-219 | the same for the public calls, which do not search an empty list |
| SkipLists.SearchStep | src/skl_search.c:126-133 | the first node not less than the probe on a level is equal to it if any node of the level is, and is then the leftmost of the tallest equal nodes |
| SkipLists.SkipList.Search | src/skl_search.c:106-137 | finds a node exactly if an equal one is there: the leftmost of the tallest equal nodes |
| Shapes.LevelIsFilter | include/private/skl_priv.h:215-216 | the pointers of level i lead from the header through exactly the nodes of height above i, in order, and back to the header |
| Shapes.Determined | include/private/skl_priv.h:215-216 | the nodes in order and their heights determine every pointer, the level, the count and the tail |
| Shapes.TwinsLinked | src/skl_ins.c:126-262 | lists of equal items and heights are linked alike on all levels and agree in level, count and tail |
| Shapes.GrowAlike | src/skl_ins.c:126-262 | the same insertion into such lists gives such lists again |
| Shapes.BothWays | src/skl_ins.c:126-262 | the one-pass and the two-pass insertion into such lists, their generators in step, leave such lists in step again: identical links |
| Shapes.PlaceOfNew | src/skl_del.c:71-78 | a probe equal to the node inserted last leads to that node |
| Shapes.Inverse | src/skl_ins.c:174-181 | in the doubly linked build, next and prev are exact inverses at every node and level of every valid list, the header included |
| Shapes.BackDetermined | src/skl_ins.c:174-181 | there the nodes and heights determine every backward pointer |
| Shapes.InsertThenDelete | src/skl_del.c:42-116 | an insertion and a deletion with an equal probe restore every pointer, in both directions, and every field |
| Shapes.UpdatesAllIff | src/skl_ins.c:70-73 | exactly when the calls that the update of all equal nodes makes are on all of these and no others |
| Shapes.UpdatesAre | src/skl_ins.c:66-76 | which nodes the update of all equal nodes is called on, in all four cases |
| Shapes.SecondLeftOut | src/skl_ins.c:70-73 | after insertions of two equal nodes and a greater one into a new list, the update of all nodes equal to the two is called on the first only, whatever the comparator makes of the header |
| Histories.PerformAll | src/skl_ins.c:351-434 | any sequence of insertions of all four kinds, deletions of any kind and searches leaves the items, and gives the answers, that a sorted sequence would, the number of nodes updated included; the heights are those that the calls and the numbers drawn determine |
| Histories.FromNew | src/skl_init.c:67-116 | from a new list on, every height, and how many numbers have been drawn, is a function of the calls alone, because every list is seeded alike |
| Histories.SameImageTwins | src/skl_init.c:67-116 | and lists that agree in this are linked alike on all levels |
| Histories.RunKeepsSorted | src/skl_ins.c:351-388 | order holds throughout every run |
| Histories.RunKeepsStrict | src/skl_ins.c:372-388 | without insertions that allow duplicates there never are any |
| Histories.RunCounts | src/skl_del.c:114-115 | the number of nodes is that of the successful insertions that have not updated instead, less that of the successful deletions |
| Histories.PerformInsertion | src/skl_ins.c:351-388 | one insertion, of either kind, gives the items, heights and status that it should, and takes the blocks of a node exactly if it succeeds |
| Histories.PerformUpdate | src/skl_ins.c:392-434 | so does one insertion that updates equal nodes instead, which says how many it has updated |
| Histories.UpdatesIffPresent | src/skl_ins.c:314-326 | an update updates something exactly if there is an equal item, and else inserts |
| Histories.RunAfter | src/skl_ins.c:351-434 | what each call makes of every run of equal items: which item goes in front of it, or that its head goes |
| Histories.AnswerIs | src/skl_del.c:71-116 | the status of each call, by the run of its key, whether the client refuses and whether the deletion is forced |
| Histories.UpdatedIs | src/skl_ins.c:43-77 | how many nodes it updates: one, or all of the run up to one, by the length of the run |
| Histories.PerformDeletion | src/skl_del.c:179-219 | so does one deletion, forced or not, with a destroyer of the data or without; it gives back the blocks of a node exactly if it succeeds |
| Histories.PerformSearch | src/skl_search.c:152-171 | and one search, which changes nothing |
| Runs.SortedByRuns | src/skl_join.c:61-79 | a sorted sequence is determined by its runs |
| Runs.RunOfInsert | src/skl_ins.c:229-251 | an insertion puts the item at the head of its run and touches no other run |
| Runs.RunOfInsertAll | src/skl_ins.c:453-472 | copying and joining with duplicates put the source's run, reversed, in front of the target's |
| Runs.CopyTwice | src/skl_ins.c:453-472 | copying a list through two empty ones restores its order, item for item |
| Runs.CopyOnceIff | src/skl_ins.c:453-472 | one copy keeps the order exactly if every run is the same backwards |
| Runs.RunOfInsertAllAbsent | src/skl_join.c:61-79 | joining without duplicates keeps every run of the target and adds, for each other key, the first item of the source's run |
| Runs.RunOfRefused | src/skl_join.c:72-73 | what is refused on the way is, for each key the target has, the source's whole run, and for any other key all of it but the first |
| Runs.NothingRefusedIff | src/skl_join.c:72-73 | nothing is refused exactly if the source's items all differ and the target has none equal to any of them, in whatever order the source is |
| Runs.NothingRefusedSorted | src/skl_join.c:72-73 | that is, for a source of the same order, if it is strictly sorted and has no key of the target |
| Runs.RefusedHere | src/skl_join.c:72-73 | an item joined to an equal one is refused |
| Runs.InsertAllAbsentStrict | src/skl_join.c:61-79 | a target without duplicates stays so |
| Runs.RunOfMeet | src/skl_join.c:110-139 | the intersection has, for each key of both, the first item of the first list's run, and nothing else |
| Runs.MeetSorted | src/skl_join.c:110-139 | it is sorted and without duplicates |
| Runs.MeetEqual | src/skl_join.c:112-130 | the merge step at equal heads |
| Runs.MeetLess | src/skl_join.c:133-137 | the merge step at a smaller head of the first list |
| Runs.MeetGreater | src/skl_join.c:138 | the merge step at a smaller head of the second list |
| Runs.MergeIsMeet | src/skl_join.c:110-139 | the merge of two lists that its comparator orders yields their intersection |
| Runs.MergeIsMeetIff | src/skl_join.c:110-139 | the merge is the intersection with every sorted first list exactly if each item of the second one with a greater one before it has an equal before that one |
| Runs.MergeSound | src/skl_join.c:110-139 | of any two lists, in whatever order, it yields only items of the first that have an equal in the second |
| Runs.MergeMisses | src/skl_join.c:110-139 | two lists of which the second is in another order, and a common item that it misses |
| Bulk.Copy | src/skl_ins.c:438-478 | every source node is inserted once, in source order; the source is unchanged and the target's nodes stay in order |
| Bulk.Join | src/skl_join.c:44-80 | the same through the two-pass insertion, with or without duplicates; which copies are discarded, and that copies discarded plus copies inserted are as many as the nodes handled, which are all; only without a node destroyer, and exactly if some item has an equal before it or in the target, a null function is called instead |
| Bulk.SkipRun | src/skl_join.c:121-128 | passes exactly the rest of a run, with the count of nodes left kept exact |
| Bulk.MeetAll | src/skl_join.c:91-139 | inserts exactly what the merge yields, whatever comparator the second list has; both counts bound all its loops |
| Bulk.Intersect | src/skl_join.c:174-270 | adds to the target what the merge yields, both sources unchanged |
| Bulk.IntersectEmpty | src/skl_join.c:91-139 | into an empty target, from lists of one comparator: the intersection itself, sorted, without duplicates |
| Iterators.Iterator.Set | src/skl_iter.c:187-214 | an iterator starts behind a node, or the header, and may use all its levels; in the doubly linked build it can go back from there too |
| Iterators.SetIterator | src/skl_iter.c:261-279 | which takes one block |
| Iterators.DestroyIterator | src/skl_iter.c:342-353 | and gives it back |
| Iterators.Iterator.GetNext | src/skl_iter.c:47-74 | yields the node that the array it stands at leads to on the level, keeps that array to go back from and moves on to the node's; or nothing, at the end, at the terminator or on a level that is not allowed, and then no field changes; or reads outside the array, exactly if the level is allowed and the array is shorter, and never if it came here going on |
| Iterators.Iterator.GetPrev | src/skl_iter.c:113-133 | the same in the other direction, where the terminator plays no part |
| Cursors.AfterGoOn | src/skl_iter.c:64-70 | having gone on, going on is safe on every level, going back on the same level undoes the step, and going back on level k reads outside the array exactly if k is above the tower left and not above the tower met |
| Cursors.AfterGoBack | src/skl_iter.c:123-129 | the same having gone back |
| Cursors.OneLevelSafe | src/skl_iter.c:47-133 | any sequence of moves on one level, in both directions, stays inside the arrays |
| Cursors.OneLevelWalks | src/skl_iter.c:47-133 | and finds what a cursor between the nodes of the level finds |
| Cursors.FromStart | src/skl_iter.c:195-206 | from a new iterator, either direction skips the node it is set to, and then is such a cursor |
| Cursors.WildHere | src/skl_iter.c:113-133 | heights and moves that read outside an array |
| Iterators.ReadsOutside | src/skl_iter.c:113-133 | and a list with calls that do |
| Iterators.Iterator.Drain | src/skl_iter.c:313-326 | drained on one level it yields the walk up to the terminator and then nothing for ever |
| Iterators.DrainLevel | src/skl_iter.c:261-279 | an iterator from the header yields on level k exactly the nodes that reach it, in order |
| Iterators.SearchAll | src/skl_search.c:52-97 | finds the first node of the run and the node after its last |
| Iterators.SearchALL | src/skl_search.c:175-205 | the status and the iterator over the run |
| Iterators.FindAll | src/skl_search.c:175-205 | that iterator yields exactly the nodes equal to the probe, in list order, and then nothing |
| Iterators.PassesEndIff | src/skl_iter.c:56-58 | when exactly it walks past its terminator on a higher level |
| Iterators.PassesEndHere | src/skl_iter.c:56-58 | heights for which it does |
| Iterators.WalksPast | src/skl_iter.c:47-74 | on a list of such heights, the iterator of a search for a single node yields that node and then one that is not equal to it |
| Iterators.WalksPastHere | src/skl_iter.c:47-74 | and on such a list, made by three insertions |
| Doubles.LinkBoth | src/skl_ins.c:243-249 | the writes of an insertion on one level make the level correct in both directions; the predecessor is the one that the descent found |
| Doubles.UnlinkBoth | src/skl_del.c:94-101 | so do those of a deletion |
| Doubles.HalfEnd | src/skl_del.c:128-142 | once every level is unlinked, dropping the victim's backward pointers leaves exactly those of the list without it |
| Memory.Destroy | src/skl_dst.c:108-132 | each node's data and then the node go to the client's functions, once, in list order, and all blocks that the list holds are freed; without a node destroyer nothing happens |
| Memory.CleanupsAt | src/skl_dst.c:40-62 | what is handed over in which order: each node in its turn, its data just before it |
| Memory.UseOne | src/private/skl_priv.c:209-237 | an operation on one of many lists leaves the others and their blocks as they are, and the two counters differ by as much more or less as its own list holds |
| Memory.WholeOne | src/skl_ins.c:438-478 | so does a copy, join or intersection into one of them, which calls a null function exactly in the case above |
| Memory.DropOne | src/skl_dst.c:108-132 | destroying one frees its blocks and no others |
| Clients.Client.DoAll | src/private/skl_priv.c:209-237 | over any sequence of creations, operations, copies, joins, intersections, iterators, and destructions of lists and iterators, up to a call that breaks: each answer, and what every list holds, are those that the calls determine; the lists stay valid and apart and the account balances |
| Clients.Client.Do | src/skl_join.c:174-270 | the same of one call; a call breaks exactly if a join refuses a copy and has no destroyer for it; a copy, join or intersection that does not break changes its target only, each run of it as written out, an intersection by the first source's comparator and items |
| Clients.JoinBreaks | src/skl_join.c:72-73 | a sequence of five calls that ends so |
| Clients.Client.Conservation | src/private/skl_priv.c:209-237 | at every moment of it the blocks allocated and not freed are 4 a live list, one a node and one a live iterator; 5 and two in the doubly linked build |
| Clients.Client.Cleaned | src/skl_misc.c:253-266 | the library's test after any such sequence tells exactly whether every list and iterator has been destroyed |
| Locks.RwLock.Destroy | src/private/rwlock.c:61-97 | finds the lock busy exactly if, in any reachable state with these counters, some thread owns it or waits for it; otherwise the lock can be used no more |
| Locks.BusyIff | src/private/rwlock.c:71-87 | the counters show one exactly if some thread owns the lock or waits for it |
| Locks.GrantIff | src/private/rwlock.c:117-246 | a thread that asks, tries, or comes back from a wait gets in exactly if: a writer, nobody is inside; a reader, no writer is inside and, at the other lock, none waits; else it sleeps or is sent away |
| Locks.LeaveCalls | src/private/rwlock.c:167-276 | whom a thread that leaves wakes, by who is inside and who waits: one writer or all readers or nobody, never all writers |
| Locks.RwLock.ReadLock | src/private/rwlock.c:117-144 | takes the lock, or joins the waiting readers |
| Locks.RwLock.ReadLockWoken | src/private/rwlock.c:129-137 | takes the lock after a wait, or goes back to sleep |
| Locks.RwLock.ReadTryLock | src/private/rwlock.c:147-162 | takes the lock or finds it busy |
| Locks.RwLock.ReadUnlock | src/private/rwlock.c:167-181 | gives it back, and whom it signals |
| Locks.RwLock.WriteLock | src/private/rwlock.c:201-225 | takes the lock, or joins the waiting writers |
| Locks.RwLock.WriteLockWoken | src/private/rwlock.c:213-222 | takes the lock after a wait, or goes back to sleep |
| Locks.RwLock.WriteTryLock | src/private/rwlock.c:231-246 | takes the lock or finds it busy |
| Locks.RwLock.WriteUnlock | src/private/rwlock.c:251-276 | gives it back, waking all readers or else one writer |
| Locks.RwMacros.ReaderEnter | include/private/skl_threads.h:85-101 | the other lock: readers also wait behind waiting writers |
| Locks.RwMacros.ReaderEnterWoken | include/private/skl_threads.h:93-96 | the same after a wait |
| Locks.RwMacros.ReaderExit | include/private/skl_threads.h:103-112 | a leaving reader signals a waiting writer |
| Locks.RwMacros.WriterEnter | include/private/skl_threads.h:114-129 | a writer enters or waits |
| Locks.RwMacros.WriterEnterWoken | include/private/skl_threads.h:121-124 | the same after a wait |
| Locks.RwMacros.WriterExit | include/private/skl_threads.h:131-145 | a leaving writer wakes a writer, or else all readers |
| Locks.InvStep | src/private/rwlock.c:117-276 | every step of every thread, spurious wakeups included, keeps the counters exact, a writer alone, and every sleeper cared for, under either lock |
| Locks.RunInv | src/private/rwlock.c:117-276 | so all this holds throughout every run of any number of threads |
| Locks.Exclusion | src/private/rwlock.c:201-225 | nobody is inside together with a writer |
| Locks.NoLostWakeup | src/private/rwlock.c:251-276 | when the lock is free and someone waits, some thread has been woken that will get it |
| Locks.Progress | src/private/rwlock.c:167-181 | as long as a thread is not idle, one inside can leave or one woken can run |
| Locks.Drain | src/private/rwlock.c:167-276 | without arrivals and spurious wakeups every run ends, within a bound given by the phases of the threads, and a run that cannot go on has all threads idle |
| Locks.AdmitsNoReader | include/private/skl_threads.h:85-101 | the other lock admits no reader while a writer waits |
| Locks.ReadersOnlyLeave | include/private/skl_threads.h:85-145 | so from a writer's first wait to its entry readers only leave, in every run |
| Locks.Overtakes | src/private/rwlock.c:126-139 | the first lock does let a reader overtake a waiting writer |
| Locks.WriterStarves | src/private/rwlock.c:126-139 | for every length there is a run in which two readers keep a writer asleep |
| Locks.ReaderStarves | include/private/skl_threads.h:73-80 | at the other lock, two writers can keep a reader asleep for any length of time |
| Locks.SwappedExitIff | include/private/skl_threads.h:73-80 | the exit changed as that comment suggests keeps the invariant exactly unless readers wait and writers sleep, none woken |
| Locks.SwappedExitDies | include/private/skl_threads.h:85-145 | three calls after which it does not: the lock is dead |
| Locks.DeadForEver | include/private/skl_threads.h:85-145 | from there, without arrivals and spurious wakeups, no thread ever gets in |
| Concurrent.CallAlone | src/skl_ins.c:360-366 | a call of the list in memory does what the runs below take a call to do if nobody else writes meanwhile |
| Concurrent.Linear | src/skl_ins.c:360-366 | in every interleaving of any number of threads, under either lock, each call answers as if the calls had been made one by one in the order in which they got the lock |
| Concurrent.LinearImage | src/skl_search.c:160-167 | and whenever no writer is inside the memory holds the list, items and heights, that these calls leave behind; once nobody is inside, every call has been answered |
| Concurrent.RunKeeps | src/skl_del.c:188-197 | what a thread inside finds is what the calls before its own made, and nobody else writes while it is there |
| Concurrent.ReadersSeeGood | src/skl_search.c:160-167 | whoever holds the lock for reading sees a whole list, even though writers change it write by write |
| Concurrent.ReadersSeeSame | src/skl_search.c:160-167 | and the same one for as long as it holds the lock |
| Mt19937.TemperBijective | src/private/skl_rand.c:201-205 | tempering is a bijection of the 32-bit words, with an explicit inverse |
| Mt19937.Recurrence | src/private/skl_rand.c:175-196 | every word of the sequence, in numbers: from the words 624, 623 and 227 places before it, with the masks, the shift and the constant written out |
| Mt19937.FirstWords | src/private/skl_rand.c:172-199 | the first 624 are those of the seeding |
| Mt19937.OutputIs | src/private/skl_rand.c:201-205 | the n-th number drawn, in numbers: word 624 + n with the four shifts and two masks of the tempering |
| Mt19937.SeedStateIs | src/private/skl_rand.c:73-78 | all 624 words of a seed, in numbers |
| Mt19937.ArrayTrace | src/private/skl_rand.c:96-152 | seeding from an array of any length, in numbers: step for step from the words of seed 19650218, as many steps as seeds but 624 at least, then 623, which word changes in each and what it becomes, and word 0 at the end |
| Mt19937.Untwist | src/private/skl_rand.c:176-181 | from a new word one can tell the bits that went into it |
| Mt19937.SameStep | src/private/skl_rand.c:175-196 | a step of the recurrence is invertible on the 19937 bits |
| Mt19937.OutputsTell | src/private/skl_rand.c:165-208 | two seedings draw the same numbers for ever if they agree in these bits, and only then: 624 equal numbers in a row tell |
| Mt19937.NeverZero | src/private/skl_rand.c:165-208 | a state with some bit set never becomes all zero |
| Mt19937.SeedNotZero | src/private/skl_rand.c:67-79 | no seed gives the all-zero state |
| Mt19937.SeedsDiffer | src/private/skl_rand.c:67-79 | different seeds draw different numbers, among the first 624 |
| Mt19937.ArrayNotZero | src/private/skl_rand.c:150-151 | no array of seeds gives the all-zero state |
| Mt19937.KeyWordMatters | src/private/skl_rand.c:96-152 | of an array of 624 seeds or more, each single one changes the numbers drawn |
| Mt19937.Rand.SetSeed | src/private/skl_rand.c:67-79 | afterwards word 0 of the array is the seed, and each further word i is 1812433253 times the one before it, mixed with its own top two bits, plus i |
| Mt19937.Rand.SetSeedArray | src/private/skl_rand.c:96-152 | the two loops fill it with the words of the array of seeds |
| Mt19937.Rand.Regenerate | src/private/skl_rand.c:172-199 | the three loops, in place, turn 624 words of the recurrence into the next 624; Mt19937.Recurrence says which these are |
| Mt19937.Rand.Next | src/private/skl_rand.c:165-208 | the n-th number drawn after any seeding is output n of the recurrence, which Mt19937.OutputIs gives in numbers |
| Mt19937.NewWithSeedArray | src/private/skl_rand.c:253-267 | an empty array of seeds gives no generator |
| Mt19937.Rand.GenLevel | src/skl_gen.c:55-78 | the level of a new node comes from the next number drawn, and one number is used up |

## Left out

- The backward pointers are kept in one map per list, from node and level to node, and not in an array for each node: that an index into such an array is in bounds is that the map has the entry.
- Shapes.UpdatesAllIff: the update of all equal nodes is modelled as written, not as documented; what the comparator makes of the header is a parameter.
- Iterators.Iterator.GetNext: a read outside an array ends the call, which says so; what such a read yields is not modelled, nor is what a program does after calling a null function.
- Clients.Client.DoAll: a list given as both source and target is refused there; the source does not check.
- Locks.Drain: liveness is for one lock; join, copy and intersect hold the locks of several lists, and opposite calls can block each other.
- Concurrent.Linear: the single writes of a call are any writes.  Bulk operations, which take the locks of several lists, are not among the calls.
- Iterators.WalksPastHere: the heights of the three insertions are given, not drawn.
- Allocation failure, and the warnings and aborts on invalid handles: calls succeed and handles are valid.
- Errors returned by the thread library, and thread cancellation with its cleanup handlers.
- `MYSKL_NO_RAND`, the other level generator, which uses floating point; `RNGyieldDouble` and `RNGyieldDoubleRange`.
- `CP_MODE`: no caller passes it, so a copy gets new heights (`src/skl_ins.c:459-460`).
- The comparator, the copy function and the destroyers of data are the client's.  The comparator is a total preorder of which only the sign matters, a copy holds the same item as its original, and calls of the update function and of the destroyers are recorded and change nothing.
- Lists that share nodes: a node inserted is not in the list already.
- Iterators across changes of the list, and the mutex inside an iterator.
- Memory that has been freed is only counted: it is not reused.  The sizes of blocks are not counted; with the garbage collector (`HAVE_LIBGC`) the library's test is always true.
- Drawing, printing, versions, verbosity, the container of lists, and the debugging library.
