# Proofs about the driver's standard library and its two accounting machines

The driver carries its own containers, because the C++ standard library is not available in the kernel. The
protected-process cache stands on them, and the user-mode service decides from batches of file events which
processes look like ransomware. This project models those parts in Dafny and proves what they keep and compute.

- `OrderedMap.dfy`: the plain meaning of an ordered map, a sorted sequence of entries, under any strict weak order.
- `RedBlackTree.dfy`: `Map` and `Set` (a map to a one-element type) as an in-place red-black tree with parent links
  and one shared, mutable sentinel. Every operation is proved against `OrderedMap` and keeps the whole invariant:
  search order, colours, black heights, links both ways, the state of the sentinel, node ownership.
- `Iterators.dfy`: the tree iterator and `ReverseIterator`. `MapRuns.dfy`: whole runs of updates.
- `Kmp.dfy`: border theory, the failure table and the search loop. `Growable.dfy`: the buffer behind `Vector` and
  `String`. `SharedPtr.dfy`: who owns what over any run of handles. `Utf8.dfy`: the printable-text scanner against
  section 3 of RFC 3629, on `Scanning.dfy`, loops that walk through a buffer, and `Counting.dfy`.
- `SelfDefense.dfy`: the process callbacks uninterrupted, on the tree. `SelfDefenseThreads.dfy`: the same callbacks
  interleaved by any number of threads under two mutexes. `SelfDefenseLaws.dfy`: what runs of them keep of the cache,
  said of the events alone.
- `Evaluation.dfy`: `EvaluateProcess`, its two passes, the tallies and the verdict. `EvaluationLaws.dfy`: what these
  amount to, as sets of events and with the thresholds written out.

## How to read it

Each tree node carries a ghost position in the in-order sequence and the range of positions its subtree holds.
`Linked(n)` says that the links of one node agree with these ranges, `Painted(n, ...)` that its colour and black
height do. Steps that move links are described by two-state predicates (`Rotated`, `Attached`, `Unlinked`, `Replaced`,
`Promoted`), and a lemma for each position near the change shows that `Linked` and `Painted` hold again.

Long functions of the source are split at their branches. `InsertFixup` is `InsertFixup`, `InsertStep`, `InsertRecolor`,
`InsertStraighten`, `InsertRaise` and `PaintRootBlack`. `DeleteFixup` is `DeleteFixup`, `DeleteStep`, one method for
each of its four cases and `PaintBlack`; its mirrored halves share these methods, the side being a parameter.
`Erase(position)` is `EraseAt`, `Remove`, `DetachEntry`, `Detach` and one method for each branch, then
`FreeThenRepair`, which deletes the node before it repairs, as the source does. Private helpers that both `Insert` and
`operator[]` repeat (descend, link in, repair) exist once. `KmpSearch` has its loop in `Search`, `CheckPrintableUTF8`
has its loop in `CountChars` and the body of that in `Iterate`.

## Where the code falls short

- The sentinel's own parent link can name a freed node between calls (`MapRuns.StaleSentinelParent` is a run,
  `EraseLeafThenClear` and `EraseLender` are families of them). No other link can (`LinksLive`). `EraseAt`, `Erase`,
  `Clear` and `Insert` state exactly when it does: after an erasure, iff a real node filled the free place and the link
  named the erased node or was stale already (`FillerIsReal` tells the first from the tree before the call); after
  `Clear`, iff it names a node at all; `Insert` changes nothing about it.
- A process can be answered as unprotected although it is due protection, in three ways: a query stores the child of
  a protected process before its creation does (`SelfDefenseThreads.InheritanceLost`), a query of an unused pid leaves
  an entry behind (`StaleEntry`), or such a query is still about to store it when the creation is notified
  (`StaleQuery`). `InheritanceLostInRun` and `StaleQueryInRun` are runs from the start. For every process
  `AnswersAreRight` says exactly when an answer is right, and `UnspoiledAnswers` does so for a pid untouched by queries
  when its creation is notified; `BirthRecord` and `StoredFlag` say what a creation records and leaves in the cache.
- A path changed by one process can be queued for another (`Evaluation.TakenForAnother`); `TakerIs` and `TakerIsCharged`
  say exactly when it is not.
- Answers of TrID are matched to files by position. When TrID reports nothing about a file, a text file among others of
  its batch or a whole batch, later answers go to the wrong files (`Evaluation.LostBatch`). `OwnAnswersIff` is the exact
  condition for every file to get its own; `BatchesIff` reads it off the batches, with one file to a batch for files
  left out singly.
- A code point with a four-byte form is judged by its low 16 bits where `wchar_t` has 16 bits; `Utf8.RebuiltExactly`
  says exactly when a code point comes back.

## Model

| member | source | states |
|---|---|---|
| OrderedMap.LowerIndex | driver/std/map/map.h:516-529 | the scan the bound is compared with: everything before the index is below the key, the entry at it is not |
| OrderedMap.UpperIndex | driver/std/map/map.h:532-545 | nothing before the index is above the key, the entry at it is |
| OrderedMap.LowerIndexSplits | driver/std/map/map.h:516-529 | in sorted entries no entry from the lower bound on is below the key, and all after it are above it |
| OrderedMap.LookupExactly | driver/std/map/map.h:494-508 | a key is present iff some entry has an equivalent key, and then that entry alone is what a lookup gives |
| OrderedMap.BoundsBracket | driver/std/map/map.h:516-551 | the two bounds enclose the entry with the key, if there is one, and nothing else |
| OrderedMap.InsertedSorted | driver/std/map/map.h:349-387 | inserting and assigning keep the entries sorted |
| OrderedMap.ErasedSorted | driver/std/map/map.h:390-433 | erasing keeps the entries sorted |
| OrderedMap.LookupInserted | driver/std/map/map.h:349-387 | Insert adds an absent key with its value and leaves a present key's value and every other key alone |
| OrderedMap.LookupErased | driver/std/map/map.h:436-443 | Erase removes exactly the named key |
| OrderedMap.LookupAssigned | driver/std/map/map.h:304-338 | assigning through operator[] sets exactly the named key |
| RedBlackTree.Map.constructor | driver/std/map/map.h:158-172 | an empty map whose sentinel is black and its own child meets the whole invariant |
| RedBlackTree.Map.RotatedLinks | driver/std/map/map.h:556-595 | after a rotation every parent and child link of the tree agrees again and no node changed its place in the order |
| RedBlackTree.Map.LeftRotate | driver/std/map/map.h:556-574 | the right child rises over the node, the in-order sequence and all links are kept |
| RedBlackTree.Map.RightRotate | driver/std/map/map.h:577-595 | the mirror image |
| RedBlackTree.Map.Grandparent | driver/std/map/map.h:598-638 | inside InsertFixup the red parent is not the root, so the grandparent is a node, and black |
| RedBlackTree.Map.InsertRecolor | driver/std/map/map.h:602-606 | with a red uncle, recolouring moves the only possible red-red pair to the grandparent |
| RedBlackTree.Map.InsertStraighten | driver/std/map/map.h:609-612 | an inner grandchild is rotated outwards; only its old parent may now be red below a red parent |
| RedBlackTree.Map.InsertRaise | driver/std/map/map.h:613-615 | raising the parent over the grandparent leaves no red node with a red parent |
| RedBlackTree.Map.InsertStep | driver/std/map/map.h:599-637 | an iteration keeps "at most z is red below red" and ends the loop or moves to a larger subtree |
| RedBlackTree.Map.InsertFixup | driver/std/map/map.h:598-638 | from one possibly misplaced red node to equal black heights, no red child of a red node and a black root; it terminates |
| RedBlackTree.Map.Sibling | driver/std/map/map.h:641-697 | where x is short by one black the sibling is a real node, and "x is its parent's left child" names the right side even for the sentinel |
| RedBlackTree.Map.LiftRedSibling | driver/std/map/map.h:645-650 | case 1 leaves x short below a red parent with a black sibling |
| RedBlackTree.Map.PassUp | driver/std/map/map.h:651-654 | case 2 moves the shortage to the parent |
| RedBlackTree.Map.RaiseInner | driver/std/map/map.h:656-661 | case 3 keeps the shortage at x and makes the outer nephew red |
| RedBlackTree.Map.RaiseOuter | driver/std/map/map.h:662-666 | case 4 makes up the shortage |
| RedBlackTree.Map.DeleteStep | driver/std/map/map.h:642-695 | an iteration keeps "exactly the subtree at x is short by one black" and ends the loop or moves to a wider subtree |
| RedBlackTree.Map.DeleteFixup | driver/std/map/map.h:641-697 | from a shortage at x, which may be the sentinel with a borrowed parent, to a red-black tree; it terminates |
| RedBlackTree.Map.Transplant | driver/std/map/map.h:700-711 | v takes u's place below u's parent, and gets that parent even when v is the sentinel |
| RedBlackTree.Map.Attach | driver/std/map/map.h:368-384 | a new red leaf takes the free side of y, with the sentinel as both its children |
| RedBlackTree.Map.Descend | driver/std/map/map.h:351-366 | the descent ends at the equivalent key or at the gap where the key belongs |
| RedBlackTree.Map.LinkEntry | driver/std/map/map.h:368-386 | linking and repairing at the gap inserts the entry at its place in the sorted entries and keeps the tree |
| RedBlackTree.Map.InsertNode | driver/std/map/map.h:349-387 | the node is linked in, or freed once when the key is there already |
| RedBlackTree.Map.Insert | driver/std/map/map.h:349-387 | all invariants hold again; the entries are the old ones plus the key if absent; the returned position and flag are right; exactly one node is allocated, and freed again iff the key was present; the sentinel's parent link and whether it is stale are as before |
| RedBlackTree.Map.Index | driver/std/map/map.h:304-338 | operator[]: the key is present with its old value or the default one, and its node is returned; a node is allocated iff the key was absent |
| RedBlackTree.Map.Assign | driver/std/map/map.h:304-338 | writing through operator[] sets the value of exactly that key |
| RedBlackTree.Map.DetachSimple | driver/std/map/map.h:399-406 | a node without a left or a right child is cut out; the tree is short one black below its parent iff the node was black |
| RedBlackTree.Map.DetachNext | driver/std/map/map.h:407-423 | the right child, being next in order, takes the node's place and colour |
| RedBlackTree.Map.DetachDeep | driver/std/map/map.h:407-423 | a next node deeper down is cut out and takes the node's place and colour |
| RedBlackTree.Map.Detach | driver/std/map/map.h:394-423 | in every branch exactly the one node leaves the order, x with its parent is where one black is missing, and the sentinel's parent link is written exactly when x is the sentinel |
| RedBlackTree.Map.FreeThenRepair | driver/std/map/map.h:425-431 | the node is freed once and the repair that follows works without it |
| RedBlackTree.Map.EraseAt | driver/std/map/map.h:390-433 | all invariants hold again; exactly that entry is gone, its node freed once; End() is left alone; the sentinel's parent link is stale afterwards iff a real node filled the place and the link named the erased node or was stale already |
| RedBlackTree.Map.FillerIsReal | driver/std/map/map.h:399-410 | a real node fills the place of an erased one iff that has exactly one child, or two and its successor has a right child |
| RedBlackTree.Map.Erase | driver/std/map/map.h:436-443 | removes exactly the named key, returns 1 iff it was present, and the size drops by that; whether the sentinel's parent link goes stale is told before the call |
| RedBlackTree.Map.Find | driver/std/map/map.h:494-508 | the node with the equivalent key or End(), as a scan of the sorted entries finds it, in at most the height of the tree steps |
| RedBlackTree.Map.LowerBound | driver/std/map/map.h:516-529 | the first entry not below the key, in at most the height of the tree steps |
| RedBlackTree.Map.UpperBound | driver/std/map/map.h:532-545 | the first entry above the key, in at most the height of the tree steps |
| RedBlackTree.Map.SpanBound | driver/std/map/map.h:598-697 | a node of black height b has at least 2^b - 1 nodes below and including it |
| RedBlackTree.Map.HeightBound | driver/std/map/map.h:598-697 | the height is at most twice the black height |
| RedBlackTree.Map.LogarithmicHeight | driver/std/map/map.h:494-551 | 2^height is at most (size + 1) squared: the height is at most 2 log2(size + 1) |
| RedBlackTree.Map.Minimum | driver/std/map/map.h:714-719 | the first node of the subtree |
| RedBlackTree.Map.Maximum | driver/std/map/map.h:722-727 | the last node of the subtree |
| RedBlackTree.Map.Successor | driver/std/map/map.h:730-740 | the next node in order, also when it is reached by climbing parent links; End() after the last |
| RedBlackTree.Map.Predecessor | driver/std/map/map.h:743-753 | the node before it in order; End() before the first |
| RedBlackTree.Map.ClearFrom | driver/std/map/map.h:756-762 | each node of the subtree is freed exactly once |
| RedBlackTree.Map.Clear | driver/std/map/map.h:473-477 | the map is empty and every node it held is freed exactly once; the sentinel's parent link is then stale iff it names a node at all |
| RedBlackTree.Map.LinksLive | driver/std/map/map.h:425-430 | no link of the tree and no child link of the sentinel leads to a freed node; every allocated node is in the tree or freed, never both |
| Iterators.Iterator.Next | driver/std/map/map.h:780-785 | ++ moves one place on in order, and End() stays |
| Iterators.Iterator.Prev | driver/std/map/map.h:794-803 | -- moves one place back, from End() to the last entry |
| Iterators.Begin | driver/std/map/map.h:246-248 | Begin() names the first entry, or End() when there is none |
| Iterators.Forward | driver/std/map/map.h:246-253 | ++ from Begin() to End() lists every entry once, in order |
| Iterators.ReverseIterator.Deref | driver/std/iterator/iterator.h:36-40 | a reverse iterator names the entry before its base |
| Iterators.ReverseIterator.Take | driver/std/iterator/iterator.h:36-51 | dereference and ++ give the entry and step one place back |
| Iterators.Backward | driver/std/map/map.h:256-263 | from RBegin() to REnd() the entries come in exactly the reversed order |
| MapRuns.AppliedSorted | driver/std/map/map.h:349-477 | any history of updates leaves the entries sorted |
| MapRuns.AppliedIsPlainMap | driver/std/map/map.h:304-477 | after any history each key has the value the history alone gives it |
| MapRuns.Run | driver/std/map/map.h:304-477 | any run of Insert, assignment, Erase and Clear keeps the tree, ends with the specified entries, and has allocated one node for each Insert and each assignment to an absent key |
| MapRuns.RunThenClear | driver/std/map/map.h:473-477 | after any run and a Clear exactly the nodes ever allocated have been freed, as many as the history allocates |
| MapRuns.RunThenFind | driver/std/map/map.h:494-508 | after any run Find answers as the plain map does |
| MapRuns.RunThenIterate | driver/std/map/map.h:246-253 | after any run iteration lists strictly increasing keys, each with its value, and misses none |
| MapRuns.EraseLeafThenClear | driver/std/map/map.h:399-410 | erasing a leaf below the root and clearing leaves a freed address in the sentinel's parent link |
| MapRuns.EraseLender | driver/std/map/map.h:399-426 | so does erasing the node the link names when that node has exactly one child |
| MapRuns.StaleSentinelParent | driver/std/map/map.h:700-711 | a concrete run after which the sentinel's own parent link names a freed node |
| Kmp.BorderChain | driver/std/algo/kmp.h:46-47 | the borders of a border are exactly the shorter borders |
| Kmp.BorderStep | driver/std/algo/kmp.h:40-43 | a border grows by one exactly when the next elements agree |
| Kmp.FallbackSkipsNone | driver/std/algo/kmp.h:46-47 | falling back to lps[length - 1] reaches the next shorter border and skips none |
| Kmp.ShiftSkipsNone | driver/std/algo/kmp.h:71-73 | falling back after a mismatch skips no start at which the pattern occurs |
| Kmp.Matcher.constructor | driver/std/algo/kmp.h:22-26 | a matcher owns a correct table from the start |
| Kmp.Matcher.ComputeLpsArray | driver/std/algo/kmp.h:34-55 | each lps[i] is the length of the longest border of pattern[0..i], within 2 * pattern_size iterations |
| Kmp.Matcher.KmpSearch | driver/std/algo/kmp.h:58-82 | the first of all starts at which the pattern occurs; 2^64 - 1 iff it occurs nowhere, and that is never an index; at most 2 * text_size iterations |
| Kmp.AnswerTells | driver/std/algo/kmp.h:81 | over a text whose indices fit into 64 bits the answer 2^64 - 1 means that there is no occurrence, and any other answer is an index where the first one is |
| Kmp.NaiveFind | driver/std/string/string.h:709-724 | the reference: the first of all starts at which the pattern occurs |
| Growable.CopyInto | driver/std/vector/vector.h:396-405 | the copy loop writes exactly the copied range, also when source and target are one array |
| Growable.Buffer.Reserve | driver/std/vector/vector.h:323-337 | contents are kept; space grows to what was asked, never shrinks |
| Growable.Buffer.PushBack | driver/std/vector/vector.h:369-383 | appends one element; space doubles when full; elements copied never exceed space minus 8 |
| Growable.Buffer.PopBack | driver/std/vector/vector.h:386-393 | removes the last element, and nothing from an empty buffer |
| Growable.Buffer.Append | driver/std/vector/vector.h:396-405 | the concatenation, without a write past the reserved space, also when a buffer is appended to itself |
| Growable.Buffer.Plus | driver/std/string/string.h:531-548 | operator+ is concatenation and leaves both operands alone |
| Growable.Buffer.EraseUnordered | driver/std/vector/vector.h:438-455 | the last element takes the erased one's place; an index out of range erases nothing |
| Growable.UnorderedKeepsTheRest | driver/std/vector/vector.h:438-455 | an unordered erase removes the one element and keeps all others, as a multiset |
| Growable.Buffer.IsPrefixOf | driver/std/string/string.h:613-634 | true iff both strings are allocated and the one is a prefix of the other |
| Growable.Buffer.Find | driver/std/string/string.h:709-724 | the first of all starts at which the pattern occurs; 2^64 - 1 iff it occurs nowhere or an operand has no storage |
| Growable.PushAll | driver/std/vector/vector.h:369-383 | n pushes on an empty buffer give exactly what was pushed and copy fewer than 2n elements in all reallocations together |
| SharedPtr.World.Make | driver/std/memory/sharedptr.h:10-15 | a fresh counter of one for a newly wrapped pointer; a null pointer has none |
| SharedPtr.World.Copy | driver/std/memory/sharedptr.h:17-23 | the copy shares object and counter, which counts it |
| SharedPtr.World.Release | driver/std/memory/sharedptr.h:57-67 | gives up one share; the last one out frees object and counter, each once |
| SharedPtr.World.Assign | driver/std/memory/sharedptr.h:25-35 | the left handle comes to share what the right one holds, also when both share already or are one |
| SharedPtr.World.FreedIffUnshared | driver/std/memory/sharedptr.h:57-67 | object and counter are freed iff no live handle is left on them; otherwise the count is the number of live handles |
| SharedPtr.World.NothingLeaks | driver/std/memory/sharedptr.h:37-39 | when no handle is left, every wrapped object and every counter has been freed |
| SharedPtr.Act | driver/std/memory/sharedptr.h:10-39 | each action takes handles and counters to the state the ledger of that action says: who manages which object, one new counter for a wrapping and none otherwise; after a copy the new handle holds the object of the copied one |
| SharedPtr.ManagingMeans | driver/std/memory/sharedptr.h:17-35 | the number the ledger gives for an object is the number of handles that manage it |
| SharedPtr.SharingIsManaging | driver/std/memory/sharedptr.h:17-35 | as many live handles share a counter as the ledger has handles on its object |
| SharedPtr.FollowsKept | driver/std/memory/sharedptr.h:57-67 | an object and its counter are freed iff the ledger has no handle on the object, and until then the counter stands at the number of those handles |
| SharedPtr.Run | driver/std/memory/sharedptr.h:10-39 | after any actions, hence after every prefix of a run, the handles are those of the ledger and every object and counter ever made is freed or counted as it says |
| SharedPtr.RunToEnd | driver/std/memory/sharedptr.h:10-39 | after any run and the destruction of what is left, as many objects and as many counters were made as pointers were wrapped, and exactly these were freed |
| Utf8.Iterate | EtwService/include/ulti/support.cpp:112-150 | one iteration advances by the stride of the leading byte and counts what the specification of the scan counts there |
| Utf8.CheckPrintableUTF8 | EtwService/include/ulti/support.cpp:102-160 | on arbitrary bytes it ends and accepts iff the input is empty, or something was counted and 100 * printable > 97 * total; encoded text is accepted iff more than 97 percent of its code points pass their test, hence if all do and not if none does |
| Utf8.ThresholdIsRatio | EtwService/include/ulti/support.h:15 | the truncating integer test is exactly 100 * part > 97 * total, negated |
| Utf8.ScanBound | EtwService/include/ulti/support.cpp:111-151 | no more characters are counted than there are bytes |
| Utf8.PrintableMeans | EtwService/include/ulti/support.cpp:116-145 | what is counted as printable is exactly the bytes that pass the test for bytes and the wide characters that pass theirs |
| Utf8.AllOrNone | EtwService/include/ulti/support.cpp:116-145 | of a text whose every code point passes all are counted as printable, and none where none passes |
| Utf8.StepOver | EtwService/include/ulti/support.cpp:113-147 | at an encoded code point the iteration advances by exactly its bytes and rebuilds it |
| Scanning.WalkWords | EtwService/include/ulti/support.cpp:111-151 | a loop that takes each of a row of words whole stops at their starts only and collects one item for each, whatever stands before and comes after |
| Utf8.EncodedThen | EtwService/include/ulti/support.cpp:111-151 | encoded text is scanned as such whatever bytes follow it |
| Utf8.RoundTrip | EtwService/include/ulti/support.cpp:102-160 | on encoded text the scan stops at every code point boundary and nowhere else, and counts one rebuilt character for each code point |
| Utf8.RebuiltExactly | EtwService/include/ulti/support.cpp:138-141 | the rebuilt value is the code point modulo 2^16, and the code point itself iff it has no four-byte form |
| Utf8.TextRebuilt | EtwService/include/ulti/support.cpp:102-160 | the i-th character scanned from encoded text is the i-th code point iff that one has no four-byte form |
| Utf8.StrideMeans | EtwService/include/ulti/support.cpp:113-149 | by how much an iteration advances, for each range of leading bytes |
| Utf8.CountedMeans | EtwService/include/ulti/support.cpp:116-149 | a byte that cannot lead and a sequence cut off by the end count nothing; any other leading byte counts one character |
| Utf8.CountedValue | EtwService/include/ulti/support.cpp:122-145 | the character counted is the low 16 bits of the joined value, whether or not the trailing bytes are valid ones |
| Utf8.Join2Means | EtwService/include/ulti/support.cpp:122-124 | which bits of a two-byte value come from which byte, for any bytes |
| Utf8.Join3Means | EtwService/include/ulti/support.cpp:130-132 | the same for three bytes |
| Utf8.Join4Ends | EtwService/include/ulti/support.cpp:138-141 | the first and last byte of four |
| Utf8.Join4Middle | EtwService/include/ulti/support.cpp:138-141 | the two bytes between |
| Utf8.InvalidIgnored | EtwService/include/ulti/support.cpp:147-149 | taking out a byte that cannot lead, wherever it stands after encoded text, leaves what is scanned unchanged |
| SelfDefense.Guard.IsInProtectedDirectory | driver/function/self_defense.cpp:404-419 | true iff the path agrees with some non-empty protected directory at each of that directory's places; the mutex is given back on every path |
| SelfDefense.EverythingInside | driver/function/self_defense.cpp:408-415 | a protected directory followed by anything is protected |
| SelfDefense.ProtectedMeans | driver/function/self_defense.cpp:408-415 | the prefix test over the list of directories, said by places and elements |
| SelfDefense.Guard.OnCreate | driver/function/self_defense.cpp:119-147 | uninterrupted, the new process is cached as protected iff its path or its parent is, unless its pid is cached already; nothing else changes |
| SelfDefense.Guard.OnTerminate | driver/function/self_defense.cpp:148-155 | exactly the pid's entry goes |
| SelfDefense.Guard.IsProtectedProcess | driver/function/self_defense.cpp:422-448 | the answer is the cached flag or whether the path is protected; an uncached pid is cached with the answer |
| SelfDefenseThreads.AdvanceKeeps | driver/function/self_defense.cpp:112-156 | each step of each callback keeps the invariant of locks, tasks and cache; which entries it writes and takes out is said by the laws of the cache below |
| SelfDefenseThreads.StepKeeps | driver/function/self_defense.cpp:112-156 | so does the start of a callback and the reaping of a process |
| SelfDefenseThreads.Always | driver/function/self_defense.cpp:112-156 | the invariant holds in every state of every run of any number of threads |
| SelfDefenseThreads.AnswersAreRight | driver/function/self_defense.cpp:422-448 | an answer about any process, also one still being created, is whether its image lies in a protected directory or its parent was protected at its creation, iff it was stored as heir of that protection or, failing that, the cached path is as protected as it should be; a process cached as protected is always answered as protected |
| SelfDefenseThreads.UnspoiledAnswers | driver/function/self_defense.cpp:422-448 | about a process whose pid was neither in the cache nor about to be stored by a query when its creation was notified, the answer is whether it is heir or its image path is protected, cached or not; that is right iff it is not owed protection it was not stored with |
| SelfDefenseThreads.BirthRecord | driver/function/self_defense.cpp:124-146 | a child is owed protection iff its own path is unprotected and its parent was found protected, and becomes heir iff in addition its pid is not cached by the time it is stored |
| SelfDefenseThreads.StoredFlag | driver/function/self_defense.cpp:123-146 | a creation leaves the flag that was cached if the pid was, and otherwise whether its path or its parent is protected |
| SelfDefenseThreads.StaysProtected | driver/function/self_defense.cpp:144-154 | once cached as protected, a process stays so until its own termination is notified |
| SelfDefenseThreads.ChildOfProtected | driver/function/self_defense.cpp:123-146 | the child of a protected process becomes protected iff its pid is not cached by the time it is stored or is cached as protected |
| SelfDefenseThreads.DescendantsProtected | driver/function/self_defense.cpp:112-156 | down any line of descent in which no pid is in the cache when it is stored, protection reaches every process and lasts until that process ends |
| SelfDefenseThreads.InheritanceLost | driver/std/map/map.h:349-366 | from any quiet state, a query that slips in before the store leaves the child of a protected process unprotected |
| SelfDefenseThreads.InheritanceLostInRun | driver/function/self_defense.cpp:112-156 | a run from an initial state that ends with a protected process and its unprotected child |
| SelfDefenseThreads.StaleEntry | driver/function/self_defense.cpp:436-444 | from any quiet state, a query of an unused pid leaves the next process with that pid unprotected although its image lies in a protected directory |
| SelfDefenseThreads.StaleQuery | driver/function/self_defense.cpp:436-444 | so does a query that found nothing before the creation was notified and stores after, although the pid was not in the cache then |
| SelfDefenseThreads.StaleQueryInRun | driver/function/self_defense.cpp:422-448 | such a run from an initial state, up to the wrong answer |
| SelfDefenseLaws.GoneUntilStored | driver/function/self_defense.cpp:148-155 | once the termination of a pid is carried out, the pid is not in the cache until a creation or a query stores it |
| SelfDefenseLaws.StoredUntilErased | driver/function/self_defense.cpp:143-155 | once stored, the pid keeps its entry until its termination is carried out |
| SelfDefenseLaws.StoreCaches | driver/function/self_defense.cpp:143-147 | a creation's store leaves the process in the cache, with its own path and flag if the pid was not there |
| SelfDefenseLaws.NoLeftovers | driver/function/self_defense.cpp:112-156 | in every run without a query of a pid, the pid is in the cache only while its process exists and has not ended, and no process with that pid finds a leftover entry or a query in its way |
| SelfDefenseLaws.EveryStoreIsBirth | driver/function/self_defense.cpp:119-147 | every creation that stores has found its path protected or looked its parent up before; the flag in the cache afterwards is the one already there, or else what it found |
| SelfDefenseThreads.LockOrder | driver/function/self_defense.cpp:404-448 | a thread that holds the directory mutex waits for nothing, and an idle or waiting-for-the-cache thread holds no mutex |
| SelfDefenseThreads.NoDeadlock | driver/function/self_defense.cpp:127-154 | whenever a callback is under way some thread can take its next step |
| SelfDefenseThreads.AllCanFinish | driver/function/self_defense.cpp:127-154 | from every reachable state all callbacks can finish, in a bounded number of steps, and both mutexes are then free |
| Evaluation.Charge | EtwService/include/manager/manager.cpp:59-92 | one event creates its process's entry and charges it iff it is the first on a present, non-empty, non-executable path and a write or rename |
| Evaluation.Decides | EtwService/include/manager/manager.cpp:75-88 | the lookup in the size map finds out exactly whether the event is the first on its path, and so whether it charges anybody |
| Evaluation.PassOne | EtwService/include/manager/manager.cpp:59-92 | the counters, the unique paths and the sizes are what the events say |
| Evaluation.CountsSumToPaths | EtwService/include/manager/manager.cpp:59-92 | the file counts of all processes add up to the number of unique paths |
| Evaluation.ChargingOnce | EtwService/include/manager/manager.cpp:75-88 | no two events charge a file for the same path |
| EvaluationLaws.ChargesMeans | EtwService/include/manager/manager.cpp:59-92 | an event charges its process iff it is a write or rename of a present, non-empty, non-executable file and no earlier event found such a file on the path |
| Evaluation.Filter | EtwService/include/manager/manager.cpp:93-109 | exactly the processes with fewer than ten files or two directories are skipped; the counters restart |
| EvaluationLaws.SuspectMeans | EtwService/include/manager/manager.cpp:93-109 | a process is looked at iff the events that charge it are at least ten, in at least two directories |
| EvaluationLaws.EnvMeans | EtwService/include/manager/manager.cpp:59-109 | pass two starts from exactly the charged paths, with the sizes seen when they were charged, and skips exactly the processes not looked at |
| Evaluation.WithinBudget | EtwService/include/manager/manager.cpp:126-133 | no process takes more bytes than the scan budget |
| Evaluation.TakenOnce | EtwService/include/manager/manager.cpp:114-134 | a path is taken at most once, whether or not the copy of it succeeds |
| Evaluation.LeftOver | EtwService/include/manager/manager.cpp:114-134 | a path is left over only if each process that touched it is skipped or had no budget left for it |
| Evaluation.QueueTaken | EtwService/include/manager/manager.cpp:111-156 | what is queued was taken by an event of that process, in the order of the events |
| Evaluation.QueuedOnce | EtwService/include/manager/manager.cpp:111-156 | no path is queued twice and none for a skipped process |
| EvaluationLaws.TakesMeans | EtwService/include/manager/manager.cpp:111-134 | an event takes its path iff the path was charged, no earlier event took it, the process is not skipped and stays within 52428800 bytes with it |
| EvaluationLaws.SpentMeans | EtwService/include/manager/manager.cpp:126-133 | a process has spent exactly the sizes of what its events took |
| EvaluationLaws.QueueMeans | EtwService/include/manager/manager.cpp:135-156 | the queue holds exactly the taken paths that were copied where that was needed |
| EvaluationLaws.QueuedWasCharged | EtwService/include/manager/manager.cpp:70-156 | each queued path was charged by an event that found a present, non-executable file there |
| EvaluationLaws.NoExecutable | EtwService/include/manager/manager.cpp:70-74 | when presence depends on the path alone, no event on an executable charges anybody or queues anything |
| Evaluation.QueuedAreChanges | EtwService/include/manager/file_manager.cpp:60-84 | when all events are changes, as the two producers of events make them, every event that queues a file is a change by that process |
| Evaluation.TakerIs | EtwService/include/manager/manager.cpp:111-134 | a path is taken for a process iff the first event of that process on it takes it |
| Evaluation.TakerIsCharged | EtwService/include/manager/manager.cpp:59-134 | when presence depends on the path alone, a charged path is taken for the process it was charged to iff that process is not skipped and had the budget when it changed the path |
| Evaluation.TakenForAnother | EtwService/include/manager/manager.cpp:111-156 | a batch of changes in which a path charged to one process is queued for another |
| Evaluation.QueuedWithinBudget | EtwService/include/manager/manager.cpp:126-150 | the bytes queued for a process stay within its budget |
| Evaluation.PassTwo | EtwService/include/manager/manager.cpp:111-156 | the queue, the remaining paths and the counters are those of the greedy choice; 64-bit addition never wraps |
| Evaluation.EnvOf | EtwService/include/manager/manager.cpp:59-109 | what pass two starts from: the changed paths, each with a known size that is not zero, and as skipped exactly those processes among the events that changed too little |
| Evaluation.IndexAnswers | EtwService/include/manager/manager.cpp:165-169 | each path gets the answer at the last position holding that path, whatever path the answer names |
| Evaluation.OwnAnswers | EtwService/include/manager/manager.cpp:165-169 | if each answer names the path at its position, every path gets the last answer about itself |
| Evaluation.OwnAnswersIff | EtwService/include/manager/manager.cpp:165-169 | over distinct paths every file gets its own answers, whatever they are, iff the names reported are a prefix of the paths handed over |
| Evaluation.InOrderIff | EtwService/include/manager/file_manager.cpp:412-444 | the names reported batch by batch are such a prefix iff no batch is lost before an answered one |
| Evaluation.BatchesIff | EtwService/include/manager/file_manager.cpp:407-446 | every file is graded by its own answer, whatever the answers, iff no batch TrID prints nothing about comes before one it answers; a batch may be a single file, so this covers files left out singly |
| Evaluation.LostBatch | EtwService/include/manager/file_manager.cpp:423-426 | after a lost batch its first file is graded by an answer about another batch |
| Evaluation.Tally | EtwService/include/manager/manager.cpp:171-200 | per process the number of graded files and of recognised ones among them |
| Evaluation.TotalIsPart | EtwService/include/manager/manager.cpp:173-199 | no more files are graded for a process than were queued for it |
| EvaluationLaws.GradedMeans | EtwService/include/manager/manager.cpp:173-199 | a file is graded iff it still exists and TrID answered about it, or it or an earlier file under the same name is an existing text file |
| EvaluationLaws.GuiltyMeans | EtwService/include/manager/manager.cpp:204-223 | guilty iff the graded files of the process are at least ten and those among them with a true answer at most 80 percent |
| EvaluationLaws.KnownMeans | EtwService/include/manager/manager.cpp:158-169 | for ten or more files the answers the verdict goes by are those TrID gives for these files, each at the last position holding its path; for fewer there are none |
| Evaluation.Verdict | EtwService/include/manager/manager.cpp:204-223 | a process is reported iff at least ten files were graded and 100 * recognised <= 80 * graded |
| Evaluation.ThresholdIsRatio | EtwService/include/manager/file_manager.h:37-38 | the truncating integer test is exactly 100 * part <= 80 * total |
| Evaluation.Judge | EtwService/include/manager/manager.cpp:158-223 | from the queue and TrID's answers to the reported processes: exactly those with ten graded files of which at most 80 percent were recognised |
| Evaluation.GradedIsSuspect | EtwService/include/manager/manager.cpp:119-122 | only a process that changed ten files in two directories has any file graded |
| Evaluation.GuiltyIsSuspect | EtwService/include/manager/manager.cpp:93-223 | whoever is to be reported changed ten files in two directories, had ten files queued, and stayed within its budget |
| Evaluation.EvaluateProcess | EtwService/include/manager/manager.cpp:21-229 | end to end, exactly those processes are reported that have ten graded files among the queued ones of which at most 80 percent were recognised, and each of them changed ten files in two directories |
| EvaluationLaws.ReportedMeans | EtwService/include/manager/manager.cpp:158-223 | who is reported, from the queue, TrID's answers about it and the files that still exist, with all thresholds written out |
| EvaluationLaws.AllAnswered | EtwService/include/manager/manager.cpp:158-223 | if ten or more files are queued, all still exist and all are answered, a process is reported iff ten of them are its own and at most 80 percent of those have a true answer |
| EvaluationLaws.AllAnsweredInOrder | EtwService/include/manager/manager.cpp:158-223 | the same with different paths, where the i-th answer is the one that counts for the i-th file |

## Left out

- `Map::Copy`, `Set::Copy` and the copy constructors and assignments: the recursion tests the source's nodes against the
  destination's sentinel, so on a non-empty source it does not end as written.
- Range `Erase(first, last)` and the iterator `Erase(position)` returns: it names the replacement node, not the
  successor.
- Moved-from maps (null sentinel), `Swap`, destructors and the plain observers.
- RedBlackTree.Map.EraseAt: the iterator the source returns, for the reason above.
- `Vector::Erase` (its loop reads one past the end), `Vector::operator=` (it returns after one element), `Clear` (it
  adds the size to the capacity) and the fill value `Resize` ignores.
- NUL termination of `String`, its `UNICODE_STRING` constructors and the hash functions.
- Growable.Buffer.PushBack: the element is a value; the source takes a reference, so pushing an element of a full buffer
  onto that buffer reads memory that `Reserve` has freed.
- Growable.Buffer.Find: an allocated pattern of length zero is excluded, for the reason given next.
- SharedPtr.World.Make: each raw pointer is wrapped once; the constructor cannot tell, and two counters for one object
  would free it twice.
- Kmp.Matcher.constructor: a pattern must not be empty; the source writes lps[0] of an empty array otherwise.
- SelfDefense.Guard.IsInProtectedDirectory: an empty string stands for one without storage, which is a prefix of
  nothing.
- The unlocked lookups of the process cache in `PreObCallback` and in the image-name lookup of a creation are taken as
  atomic; what the operating system names as the path of a live pid is given.
- SelfDefenseThreads.AllCanFinish: that threads are scheduled fairly is not modelled; it shows a schedule exists.
- Evaluation.PassTwo: the budget is what released builds compile in; debug builds have none.
- Evaluation.EvaluateProcess: file sizes are below 2^63, being signed 64-bit numbers; path hashes are the keys and are
  not claimed to be injective; the file system, the copying and TrID are given, TrID reporting on no more files than it
  was asked about. What the text-file check itself answers is overwritten in the source and so claimed nowhere.
- Sizes, counters and indices are unbounded except where a wrap is written out (`Evaluation.Add64`).
- ETW sessions, WMI properties, event decoding, service control, minifilter registration, access-mask handling,
  communication ports, logging and loaders: foreign calls and plumbing.
