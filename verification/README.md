# Models of the TAHI test platform's containers, token trie, message path and dispatcher

The project models four components in Dafny and proves what they keep over whole runs:

* **The gap-buffer list** (`Slots`, `GapList`, `SlotArray`). `BtList` keeps its elements in one slot
  array with a movable gap; growing and copying rescan the raw slots and drop nulls. The class
  `GapList.BtList` is proved against a plain sequence, `SlotArray.BtArray` against a bag.
* **The token trie** (`TrieModel`, `TrieLookup`, `TrieInsert`, `TrieRuns`, `TrieWitnesses`,
  `TokenHeap`). `CmMatch` nodes hang in intrusive rings of `CmQueue` links. `TokenHeap` has the rings
  and the nodes on the heap and proves that lookup and insertion there compute the functions
  `FindToken` and `Add` on the trie that the heap stands for; the other modules prove what these
  functions do.
* **The koid message path** (`TailList`, `LeftData`, `Reassembly`, `DnsFraming`, `MessageTable`,
  `RecvTimer`, `RecvRuns`, `MessageRuns`, `RequestRuns`, `SocketTable`). TCP bytes are merged with left
  data and parsed, messages are registered, receive requests wait for them until a deadline; below is an
  append-only socket table.
* **The event dispatcher** (`Dispatch`). A select loop whose callbacks may link and unlink descriptors
  in the middle of a pass. What callbacks do is a parameter (`World`), so the theorems hold for all of
  it; so is what `select` reports.

Each class method is proved against a function of the old state, and the theorems are lemmas about
those functions. Every lemma is marked `{:induction false}`: all induction in the project is explicit.

## Where the code and its purpose part

The models follow the code. Where the code does not do what it is evidently for, there is a lemma with
a concrete input and a lemma that says exactly when it does:

* `findMatchString` (CmMatch.cc:117-118) looks the rest of the text up twice. Where no node's piece can
  be read at its parent's place, a way of K nodes yields its first node if K is odd and its second if K
  is even (`LookupByParity`), so the deepest match is found exactly when K is at most 2
  (`LookupIsExactIff`, for all inputs at once `LookupIsExactEverywhereIff`). On tries of at most three
  levels nothing is excluded: a way of three nodes is found exactly if its third overlaps its second
  (`ThreeLevelsExactIff`, `ThreeLevelsExactEverywhereIff`). On any trie, ways of three nodes have exact
  conditions for being found and for being sound (`ThreeNodesExactIff`, `ThreeNodesSoundIff`), and a token
  is found exactly if its lookup is exact (`TokenIsFoundIffExact`). `ThirdLevelIsMissed`: with tokens "a", "ab",
  "abc" the text "abc" yields "a". `OverlapFindsWrongToken`: with "x", "xa", "xaa", "xaaaz" the text
  "xaaz" yields "xaaaz", and the lexer moves past the end of its input.
* `split` links the new node with `p->insert`, which puts it before its predecessor p. An addition keeps
  sorted rings sorted exactly when it splits no node that has siblings (`AddKeepsSortedIff`, for whole
  runs `RunKeepsSortedIff`); linked in place it always would. `MisplacedSplitHidesToken`: after "ab",
  "cd", "ce", "ax", "ab" is not found.
* `array` (BtList.cc:86-91) may break the list: `GapList.BtList.Array` has the exact condition,
  `ArrayBreaksList` a list of two. Assigning a list to itself empties it (`GapList.BtList.Assign`).
* Unlinking an entry of kBuffer.c or kRecvTimeoutTimer.c moves the tail pointer to the entry's
  predecessor. The tail pointer stays right exactly in the cases of `UnlinkKeepsTailIff`, and later
  entries get into the list exactly when it is right (`AppendsIff`, `SetIsUpdateIff`,
  `PassKeepsTailIff`). Over whole runs: deliveries are exact if and only if every store finds the tail
  pointer right (`DeliveryIsSegmentationIndependentIff`), and no waiting request is lost if and only if
  every request made to wait does (`RequestsAreConserved`). `ThirdConnectionLosesItsData` is a run in
  which a connection loses its bytes, `WaitingRequestIsLost` one in which a request is lost.
* `kDataClear` does not move the tail pointer at all (`ClearKeepsTailIff`). Over whole runs, no message
  is lost if and only if each finds it right when it is registered (`MessagesAreConserved`);
  `NewMessageIsLost` is a run in which one does not.
* Closing a TCP listener (kSocket.c:1694-1696, an `||` where an `&&` is meant) closes every TCP
  connection, and sometimes other listeners (`ClosesRightlyIff`, `BystandersAreClosed`).
* `kSocketMakeSocketStatusClose` marks the first entry that ever had a descriptor, not the living one
  (`ReopenKeepsIff`, `OldEntryIsMarked`).
* A connection accepted at the id limit is watched by select without an entry (`AcceptKeepsIff`, for
  whole runs `RunKeepsSafeIff`; `UnregisteredIsWatched`).
* The DNS parser returns the message size in a short (`DnsFramesIff` has the exact condition,
  `LongMessageIsNotFramed` a message).
* `reduce_nfds` asks for a write handler twice and never for an exception handler
  (`ExceptCoveredIff`, `ExceptHandlerIsForgotten`).
* A callback that unlinks itself and then returns a positive status leaves a ready bit without a handler
  (`StrayIff`, for whole runs `RunIsTidy`; `SelfUnlinkLeavesStray`); if nothing reaches it any more, select
  never waits again (`StrayStays`).

## How the source is read

* An `abort` (range errors, a null element handed to `enque`, descriptors out of range) is a
  precondition, except in `setToken`, where it is a result.
* A C string is a sequence of non-zero signed characters. A `CmMatch` is a `CmQueue` in C++; here it has
  one as its `link`, and `owner` is the cast back. `split` shortens the string before it relinks the
  node, not after.
* A null pointer in a slot is `NULL`. Freed memory that the code still reads (kRecvTimerProc reads the
  next pointer of a freed request; appending writes into a freed tail entry) is read as what it last
  held, and written without effect on the list.
* The deadline of a request, which kRecvTimerSet computes from the clock, is part of the request.
* Time, the results of system calls, the parser of a connection, uninitialised stack memory (`garbage`)
  and the largest socket id in use, which only grows, are parameters. The byte order of the DNS length field is that of a
  little-endian host.
* The three `CmFdMasks` objects of a dispatcher are never shared and are values of a datatype.

## Model

| member | source | states |
|---|---|---|
| GapList.GapMovesLeft | v6eval-3.3.2/lib/Cm/BtList.cc:70-76 | sliding elements right over the gap leaves the logical sequence as it is and an all-null gap at the new place, also when the way is longer than the gap |
| GapList.GapMovesRight | v6eval-3.3.2/lib/Cm/BtList.cc:78-84 | the same for sliding elements left |
| GapList.BtList.LeftToRight | v6eval-3.3.2/lib/Cm/BtList.cc:74-76 | the in-place loop, last element first, produces the slid slots |
| GapList.BtList.RightToLeft | v6eval-3.3.2/lib/Cm/BtList.cc:82-84 | the in-place loop, first element first, produces the slid slots, also without a gap, when it clears what it copies |
| GapList.BtList.At | v6eval-3.3.2/lib/Cm/BtList.cc:66-68 | the slot at position(i) holds element i of the logical sequence |
| GapList.BtList.AtPut | v6eval-3.3.2/lib/Cm/BtArray.cc:97-102 | replaces element i and returns the old one |
| GapList.BtList.Insert | v6eval-3.3.2/lib/Cm/BtList.cc:93-101 | inserts at the index; a full list first grows to 2(capacity+1) and loses its null elements |
| GapList.BtList.Append | v6eval-3.3.2/lib/Cm/BtList.h:86 | appends |
| GapList.BtList.Prepend | v6eval-3.3.2/lib/Cm/BtList.h:85 | prepends |
| GapList.BtList.RemoveAt | v6eval-3.3.2/lib/Cm/BtList.cc:103-111 | deletes the element and returns it, also from a full list |
| GapList.RescanSeesView | v6eval-3.3.2/lib/Cm/BtArray.cc:112-118 | scanning the raw slots and skipping nulls yields the logical sequence without its nulls |
| GapList.BtList.CopyElements | v6eval-3.3.2/lib/Cm/BtArray.cc:112-118 | refilling through the virtual add yields the non-null slots in order, and nothing from its own array |
| GapList.BtList.Expand | v6eval-3.3.2/lib/Cm/BtArray.cc:122-132 | growth keeps the non-null elements in order and makes room, so the recursion add, expand, copyElements, add ends |
| GapList.BtList.Assign | v6eval-3.3.2/lib/Cm/BtArray.cc:81-85 | assignment copies the other list's non-null elements; self-assignment empties the list |
| GapList.BtList.CopyOf | v6eval-3.3.2/lib/Cm/BtList.cc:60-61 | copy construction yields the other list's non-null elements in as many slots |
| GapList.BtList.Array | v6eval-3.3.2/lib/Cm/BtList.cc:86-91 | returns the asked-for run of elements and leaves the list as it is if and only if the elements lie right of the gap, or a real gap is closed up over them, or there is no gap and nothing to move |
| GapList.ClosingUp | v6eval-3.3.2/lib/Cm/BtList.cc:86-91 | both directions of that for the slots, for elements that begin left of the gap |
| GapList.ArrayBreaksList | v6eval-3.3.2/lib/Cm/BtList.cc:86-91 | a list of two elements that array turns into an element and a null |
| GapList.BtList.FindAt | v6eval-3.3.2/lib/Cm/BtArray.cc:148-155 | finds the first occurrence by logical index, or null |
| GapList.BtList.Remove | v6eval-3.3.2/lib/Cm/BtArray.cc:161-165 | deletes the first occurrence, or nothing |
| GapList.BtList.AddIfAbsent | v6eval-3.3.2/lib/Cm/BtArray.cc:167-169 | appends what is not there yet |
| GapList.Run | v6eval-3.3.2/lib/Cm/BtList.cc:93-111 | any run of insertions, deletions and replacements on non-null elements computes what it computes on a plain sequence; from an empty list, capacity is at most 2n and fewer than 2n elements are added again by all expansions, for n additions |
| SlotArray.BtArray.Add | v6eval-3.3.2/lib/Cm/BtArray.cc:104-110 | puts the element into the first free slot, growing when there is none |
| SlotArray.PlacedAddsOne | v6eval-3.3.2/lib/Cm/BtArray.cc:104-110 | an addition moves no element and adds exactly one |
| SlotArray.BtArray.CopyElements | v6eval-3.3.2/lib/Cm/BtArray.cc:112-118 | packs the non-null slots of the source in order at the start |
| SlotArray.BtArray.Expand | v6eval-3.3.2/lib/Cm/BtArray.cc:127-132 | growth of a full array keeps every index |
| SlotArray.BtArray.FindAt | v6eval-3.3.2/lib/Cm/BtArray.cc:148-155 | finds the first occurrence, or null |
| SlotArray.BtArray.Remove | v6eval-3.3.2/lib/Cm/BtArray.cc:143-165 | takes exactly one occurrence out of the bag |
| SlotArray.BtArray.AddIfAbsent | v6eval-3.3.2/lib/Cm/BtArray.cc:167-169 | keeps the bag free of duplicates |
| TokenHeap.CmQueue.Enque | v6eval-3.3.2/lib/Cm/CmQueue.cc:55-60 | splices the element directly behind the receiver, the rest stays a ring in its order |
| TokenHeap.CmQueue.Insert | v6eval-3.3.2/lib/Cm/CmQueue.h:88 | splices the element directly in front of the receiver |
| TokenHeap.CmQueue.Deque | v6eval-3.3.2/lib/Cm/CmQueue.cc:50-53 | removes exactly the receiver, which becomes a ring of its own |
| TokenHeap.EnqueThenDeque | v6eval-3.3.2/lib/Cm/CmQueue.cc:50-60 | deque undoes enque, and no other ring changes |
| TokenHeap.Rotation | v6eval-3.3.2/lib/Cm/CmQueue.h:82-88 | a ring can be read from any of its elements |
| TokenHeap.EqualInitialOf | v6eval-3.3.2/lib/Cm/CmMatch.cc:87-94 | the walk along the ring finds the first node with this initial |
| TokenHeap.GreaterEqualInitialOf | v6eval-3.3.2/lib/Cm/CmMatch.cc:77-85 | the walk finds the first node that does not start below c, or comes back to the head |
| TokenHeap.FindMatchStringOf | v6eval-3.3.2/lib/Cm/CmMatch.cc:110-119 | on the heap computes FindMatchString of the trie |
| TokenHeap.FindTokenOf | v6eval-3.3.2/lib/Cm/CmMatch.cc:142-145 | on the heap computes FindToken of the trie |
| TokenHeap.LexOf | v6eval-3.3.2/lib/Cm/CmMatch.cc:147-150 | on the heap computes Lex of the trie |
| TokenHeap.SetToken | v6eval-3.3.2/lib/Cm/CmMatch.cc:53-58 | sets the token of a node without one; otherwise aborts and changes nothing |
| TokenHeap.Split | v6eval-3.3.2/lib/Cm/CmMatch.cc:63-73 | takes the node out of its ring, puts it below a new node that holds its first characters, and links that one in front of the old predecessor; every object below the head stays below it |
| TokenHeap.MatchTokenString | v6eval-3.3.2/lib/Cm/CmMatch.cc:98-108 | through all of its branches computes Add of the trie for a node with the right initial |
| TokenHeap.AddTokenString | v6eval-3.3.2/lib/Cm/CmMatch.cc:123-134 | insertion on the heap computes Add of the trie, keeps all rings rings and all nodes apart, and reports false exactly when Add aborts |
| TokenHeap.AddTokens | v6eval-3.3.2/lib/Cm/CmMatch.cc:152-154 | a run of addToken on the heap computes AddAll of the trie |
| TrieModel.DeepestIsSound | v6eval-3.3.2/lib/Cm/CmMatch.cc:110-119 | the intended lookup returns a node whose whole path is a prefix of the input |
| TrieModel.DeepestIsDeepest | v6eval-3.3.2/lib/Cm/CmMatch.cc:110-119 | with distinct initials, every node whose path is a prefix of the input lies on the way to it; a node without characters only if its path is the whole input |
| TrieModel.PathsAreUnique | v6eval-3.3.2/lib/Cm/CmMatch.cc:75-94 | with distinct initials, no two places in the trie spell the same string |
| TrieLookup.MatchByParity | v6eval-3.3.2/lib/Cm/CmMatch.cc:110-119 | what the double lookup returns below a node, by the number of nodes on the way |
| TrieLookup.LookupByParity | v6eval-3.3.2/lib/Cm/CmMatch.cc:110-138 | on an overlap-free way the code returns the first node if the number of nodes is odd, else the second |
| TrieLookup.ShortWaysAreFound | v6eval-3.3.2/lib/Cm/CmMatch.cc:110-138 | on ways of at most two nodes the code finds the deepest match, on every trie |
| TrieLookup.LookupIsExactIff | v6eval-3.3.2/lib/Cm/CmMatch.cc:110-138 | on an overlap-free way the code finds the deepest match if and only if the way has at most two nodes |
| TrieLookup.ThreeNodeWay | v6eval-3.3.2/lib/Cm/CmMatch.cc:110-138 | on any way of three nodes a, b, c the code returns a, or what it finds when it looks for c again where b was matched, if c overlaps b |
| TrieLookup.ThreeNodesExactIff | v6eval-3.3.2/lib/Cm/CmMatch.cc:110-138 | on any trie, a way of three nodes is found if and only if its third node overlaps its second and looking it up again there stops at it |
| TrieLookup.ThreeNodesSoundIff | v6eval-3.3.2/lib/Cm/CmMatch.cc:110-138 | on any trie with distinct initials, what the code returns on a way of three nodes spells a prefix of the input if and only if the third node does not overlap the second, or looking it up again stops at it |
| TrieLookup.StaysIff | v6eval-3.3.2/lib/Cm/CmMatch.cc:110-138 | looking a matching node up again stops at it if and only if nothing is found below it, or what is found does not match where it is looked up again |
| TrieLookup.ThreeLevelLookup | v6eval-3.3.2/lib/Cm/CmMatch.cc:110-138 | what the code returns on every trie of at most three levels: the deepest match, or the first node of a way of three whose third does not overlap the second |
| TrieLookup.ThreeLevelsExactIff | v6eval-3.3.2/lib/Cm/CmMatch.cc:110-138 | so there the code finds the deepest match if and only if the way has at most two nodes or its third overlaps its second |
| TrieLookup.LookupIsExactEverywhereIff | v6eval-3.3.2/lib/Cm/CmMatch.cc:110-145 | on an overlap-free trie the code is right for all inputs if and only if there is no third level |
| TrieLookup.ThreeLevelsExactEverywhereIff | v6eval-3.3.2/lib/Cm/CmMatch.cc:110-145 | on a trie of at most three levels the code is right for all inputs if and only if each node of the third level overlaps its parent |
| TrieLookup.LookupIsSound | v6eval-3.3.2/lib/Cm/CmMatch.cc:110-138 | on every trie of at most three levels and on every overlap-free way, what the code returns spells a prefix of the input, with no ordering assumption |
| TrieInsert.Add | v6eval-3.3.2/lib/Cm/CmMatch.cc:98-134 | at most leaves of the topmost ring are without characters after an insertion, and none if there were none and the string has some; the ring is then not empty |
| TrieInsert.AddConserves | v6eval-3.3.2/lib/Cm/CmMatch.cc:53-134 | the (string, token) pairs after an addition are the old ones and exactly the new one, through every branch |
| TrieInsert.SplitConserves | v6eval-3.3.2/lib/Cm/CmMatch.cc:63-73 | the same through both split cases |
| TrieInsert.AbortMeansDuplicate | v6eval-3.3.2/lib/Cm/CmMatch.cc:53-58 | setToken aborts only for a string that is already stored |
| TrieInsert.AddKeepsSortedIff | v6eval-3.3.2/lib/Cm/CmMatch.cc:63-94 | an addition to a sorted trie keeps it sorted if and only if it splits no node with siblings; linked in place it always does |
| TrieRuns.RunConserves | v6eval-3.3.2/lib/Cm/CmMatch.cc:152-154 | a run over distinct strings never aborts and stores exactly these tokens |
| TrieRuns.RunKeepsSortedIff | v6eval-3.3.2/lib/Cm/CmMatch.cc:63-94 | rings stay strictly increasing over every run linked in place; over a run as written they do, after each addition, if and only if it never splits a node that has siblings |
| TrieRuns.ReachedIsStored | v6eval-3.3.2/lib/Cm/CmMatch.cc:53-134 | what stands at a place of the trie is stored under the string that the place spells |
| TrieRuns.StoredIsReached | v6eval-3.3.2/lib/Cm/CmMatch.cc:53-134 | every stored pair stands at some place |
| TrieRuns.StoredTokenIsDeepest | v6eval-3.3.2/lib/Cm/CmMatch.cc:110-145 | the intended lookup finds every stored token by its own string |
| TrieRuns.DeepestTokenIsLongest | v6eval-3.3.2/lib/Cm/CmMatch.cc:110-145 | if the deepest match carries a token, it is the longest stored prefix of the input |
| TrieRuns.LexConsumesItsTokenIff | v6eval-3.3.2/lib/Cm/CmMatch.cc:147-150 | on every trie the lexer returns stored tokens only; the input begins with the token returned, and the lexer moves over exactly that, if and only if the lookup is sound, as it is on tries of at most three levels and on overlap-free ways |
| TrieRuns.FoundTokenIsStored | v6eval-3.3.2/lib/Cm/CmMatch.cc:142-145 | on every trie the token found is a stored one, and the input begins with it if and only if the lookup is sound |
| TrieRuns.LexIsLongestMatch | v6eval-3.3.2/lib/Cm/CmMatch.cc:147-150 | the lexer returns the longest stored prefix where the way has at most two nodes and its end carries a token |
| TrieRuns.TokenIsFoundIff | v6eval-3.3.2/lib/Cm/CmMatch.cc:110-145 | which stored tokens are found by their own strings: all on the first two levels; on the third exactly those that overlap the parent and where looking up again stops; without overlaps no others |
| TrieRuns.TokenIsFoundIffExact | v6eval-3.3.2/lib/Cm/CmMatch.cc:110-145 | on every trie with distinct initials a stored token is found by its own string if and only if the lookup of that string is exact |
| TrieRuns.EveryTokenIsFound | v6eval-3.3.2/lib/Cm/CmMatch.cc:98-154 | after any run over tokens with distinct strings that is linked in place, or as written without splitting a node that has siblings, the intended lookup finds each token, and the code each on the first two levels, and each other if and only if its lookup is exact |
| TrieWitnesses.MisplacedSplitHidesToken | v6eval-3.3.2/lib/Cm/CmMatch.cc:63-73 | after "ab", "cd", "ce", "ax" a ring is out of order and "ab" is stored but not found |
| TrieWitnesses.ThirdLevelIsMissed | v6eval-3.3.2/lib/Cm/CmMatch.cc:110-119 | after "a", "ab", "abc" looking up "abc" yields "a", with all rings in order |
| TrieWitnesses.OverlapFindsWrongToken | v6eval-3.3.2/lib/Cm/CmMatch.cc:110-150 | after "x", "xa", "xaa", "xaaaz" the lexer takes "xaaz" for "xaaaz" |
| TailList.AppendsIff | koi-2.2.0/lib/kBuffer/kBuffer.c:219-236 | linking a new entry appends it if and only if the tail pointer points to the last one |
| TailList.UnlinkKeepsTailIff | koi-2.2.0/lib/kBuffer/kBuffer.c:290-306 | unlinking leaves the tail pointer right if and only if the last entry was unlinked, or the first one with a right tail pointer |
| LeftData.Buffer.SetLeft | koi-2.2.0/lib/kBuffer/kBuffer.c:132-240 | refuses when the table counts as full or has an entry, else links a new entry |
| LeftData.Buffer.GetLeft | koi-2.2.0/lib/kBuffer/kBuffer.c:248-335 | returns the bytes of the entry and takes it out, or no bytes |
| LeftData.SetIsUpdateIff | koi-2.2.0/lib/kBuffer/kBuffer.c:132-240 | setting updates the map from sockets to bytes at this socket only, if and only if the tail pointer is right |
| LeftData.GetTakesOut | koi-2.2.0/lib/kBuffer/kBuffer.c:248-335 | getting returns the socket's bytes and takes exactly its entry out of the map; when the tail pointer is right afterwards |
| LeftData.NeverFull | koi-2.2.0/lib/kBuffer/kBuffer.c:143-153 | with ids from 1 to the largest in use, the test for a full table never refuses an absent id |
| Reassembly.ParseSpace | koi-2.2.0/lib/kDispatcher/kDispatcher.c:2438-2503 | the parsing loop registers the messages and keeps the bytes that the recursive parse gives; every round with more data shortens what is left |
| Reassembly.ProcessTcp | koi-2.2.0/lib/kDispatcher/kDispatcher.c:2396-2506 | left data, merge, loop and left data again, for one readable socket |
| Reassembly.FramesIsSized | koi-2.2.0/lib/kDispatcher/kDispatcher.c:2438-2503 | on a stream that the parser cuts by prefixes, the loop never fails, and what it leaves holds no message |
| Reassembly.BytesAreAccountedFor | koi-2.2.0/lib/kDispatcher/kDispatcher.c:2438-2503 | for any parser whose sizes stay inside the buffer: the messages are, end to end, the bytes up to where the loop stops; the rest is kept if and only if it stops at NoMatch, and it fails only at an error |
| Reassembly.ParseResumes | koi-2.2.0/lib/kDispatcher/kDispatcher.c:2396-2503 | parsing a first part, and then what was left with the rest, gives what one parse of the whole gives |
| Reassembly.ReceiveKeepsIff | koi-2.2.0/lib/kDispatcher/kDispatcher.c:2396-2506 | with a right tail pointer, an event changes the map of left data at its own socket only and keeps the tail pointer right, if and only if the entry it takes out stands at an end of the list |
| Reassembly.ReceiveIsUpdateIff | koi-2.2.0/lib/kDispatcher/kDispatcher.c:2396-2506 | wherever the tail pointer is: an event changes the map at its own socket only if and only if it has nothing to store or finds the tail pointer right after the old entry has been taken out |
| Reassembly.DeliveryIsSegmentationIndependentIff | koi-2.2.0/lib/kDispatcher/kDispatcher.c:2396-2506 | for every run over many sockets, however their streams are cut and interleaved: throughout the run each socket's registered messages are those of one parse of its whole stream and its left data is exactly what that parse leaves, if and only if every event that stores bytes finds the tail pointer right |
| Reassembly.CutsDoNotMatter | koi-2.2.0/lib/kDispatcher/kDispatcher.c:2396-2506 | two such runs that cut the same streams differently end with the same messages and left data for each socket |
| Reassembly.CalmStoresRight | koi-2.2.0/lib/kDispatcher/kDispatcher.c:2396-2506 | a run in which each entry taken stands at an end of the list finds the tail pointer right throughout |
| Reassembly.TwoSocketsAreCalm | koi-2.2.0/lib/kBuffer/kBuffer.c:290-306 | with at most two sockets the entry taken always stands at an end of the list |
| DnsFraming.DnsFramesIff | koi-2.2.0/lib/kDispatcher/kDispatcher.c:2438-2503 | the DNS parser (kParserDNS.c:80-112) meets the loop's contract on a stream if and only if no complete message with its length field exceeds 32767 bytes |
| DnsFraming.LongMessageIsNotFramed | koi-2.2.0/lib/kDispatcher/kDispatcher.c:2438-2503 | a message of 32766 bytes, for which the DNS parser (kParserDNS.c:80-112) reports a negative size |
| DnsFraming.SentIsParsed | koi-2.2.0/lib/kDispatcher/kDispatcher.c:2438-2503 | with the DNS parser (kParserDNS.c:80-112), parsing the two-byte framing of section 4.2.2 of RFC 1035 gives back the messages that were framed, with nothing left |
| DnsFraming.EveryDnsMessageArrives | koi-2.2.0/lib/kDispatcher/kDispatcher.c:2396-2506 | DNS messages sent over many connections are all registered, in order, with nothing left, however the bytes are cut and interleaved, in every run that finds the tail pointer right |
| DnsFraming.ThirdConnectionLosesItsData | koi-2.2.0/lib/kBuffer/kBuffer.c:290-306 | four segments on three connections after which the third one's byte is gone |
| MessageTable.Regist | koi-2.2.0/lib/kData/kData.c:227-461 | a registration keeps ids strictly increasing along the list and below the counter |
| MessageTable.DataTable.RegistData | koi-2.2.0/lib/kData/kData.c:227-461 | refuses at the limit, for an unknown socket and for UNIX and listening sockets, else links a message with the next id |
| MessageTable.Oldest | koi-2.2.0/lib/kData/kData.c:632-770 | the message fetched is the first in the list that answers the request |
| MessageTable.DataTable.GetBySocketId | koi-2.2.0/lib/kData/kData.c:563-795 | fetches the oldest answer and marks it, and only it, as read |
| MessageTable.FetchFromAny | koi-2.2.0/lib/kData/kData.c:620-646 | a request for any socket gets the first unread received message of the list, which is marked as read, or nothing if there is none |
| MessageTable.FetchFromOwn | koi-2.2.0/lib/kData/kData.c:647-676 | one for a UDP, TCP data or raw socket gets the first such message of that very socket, or nothing if it has none |
| MessageTable.FetchFromChildren | koi-2.2.0/lib/kData/kData.c:677-749 | one for a listening socket gets the first such message of a living TCP data or UDP socket whose parent it is, or nothing |
| MessageTable.FetchFailsIff | koi-2.2.0/lib/kData/kData.c:563-795 | a fetch is an error if and only if there are messages and the socket is negative, unknown or a UNIX one; then nothing changes |
| MessageTable.FetchBelongs | koi-2.2.0/lib/kData/kData.c:563-795 | what is handed out belongs to the request by the sockets' kinds and parents, and if nothing is, no unread message does |
| MessageTable.RegistersIff | koi-2.2.0/lib/kData/kData.c:227-461 | a message is registered if and only if the id limit is not reached and its socket is a UDP, TCP data or raw one; it stands behind all others, unread, with the next id |
| MessageTable.RegisteredIsFetched | koi-2.2.0/lib/kData/kData.c:227-795 | a socket without unread messages is given the next one that is registered for it, if it was received |
| MessageTable.DataTable.ClearData | koi-2.2.0/lib/kData/kData.c:146-219 | computes Clear: an empty table and an ambiguous request change nothing, a flush of everything resets the ids |
| MessageTable.ClearTakesExactly | koi-2.2.0/lib/kData/kData.c:146-219 | a clear that is not a flush of everything takes out exactly the messages of the socket it names, if its flag says so, and the message with the id it names, if that flag says so; the order stays |
| MessageTable.ClearKeepsAnswer | koi-2.2.0/lib/kData/kData.c:146-795 | a clear that takes none of the messages a socket has yet to get leaves the answer to its next request as it was |
| MessageTable.ClearedSocketHasNone | koi-2.2.0/lib/kData/kData.c:146-795 | after a socket's messages are cleared, a request of its own finds nothing, and one of any other socket what it would have found |
| MessageTable.PurgeLoop | koi-2.2.0/lib/kData/kData.c:179-216 | the removal loop filters the list and leaves the tail pointer on its message or on none |
| MessageTable.KeptIsValid | koi-2.2.0/lib/kData/kData.c:179-216 | clearing keeps the order and brings in nothing |
| MessageTable.KeptAt | koi-2.2.0/lib/kData/kData.c:179-216 | every message that is not to go is kept, behind those kept before it |
| MessageTable.KeptFrom | koi-2.2.0/lib/kData/kData.c:179-216 | every message kept was in the list and was not to go |
| MessageTable.ClearKeepsTailIff | koi-2.2.0/lib/kData/kData.c:146-219 | later registrations reach the list if and only if the newest message was kept or none was |
| RecvTimer.TimerTable.SetTimer | koi-2.2.0/lib/kRecvTimeoutTimer/kRecvTimeoutTimer.c:111-222 | refuses a negative socket, a full table and a socket that waits already, else links the request |
| RecvTimer.WaitsIff | koi-2.2.0/lib/kRecvTimeoutTimer/kRecvTimeoutTimer.c:111-222 | a request is made to wait if and only if its socket is not negative, none waits for the same socket and the table is not full; it waits behind all others |
| RecvTimer.TimerTable.RemoveTimer | koi-2.2.0/lib/kRecvTimeoutTimer/kRecvTimeoutTimer.c:357-424 | unlinks the request of the socket |
| RecvTimer.TimerTable.Proc | koi-2.2.0/lib/kRecvTimeoutTimer/kRecvTimeoutTimer.c:231-351 | the loop that removes requests under its own feet computes Pass |
| RecvTimer.PassIsSweep | koi-2.2.0/lib/kRecvTimeoutTimer/kRecvTimeoutTimer.c:249-424 | that pass looks at each request exactly once, from the first to the last |
| RecvTimer.PendingAfterPass | koi-2.2.0/lib/kRecvTimeoutTimer/kRecvTimeoutTimer.c:249-351 | what stays pending, in the original order, is exactly what had no answer in its turn and whose deadline is after now |
| RecvTimer.NothingMissed | koi-2.2.0/lib/kRecvTimeoutTimer/kRecvTimeoutTimer.c:249-351 | at the end of a pass nothing pending has an answer in the table |
| RecvTimer.SweepSettlesOnce | koi-2.2.0/lib/kRecvTimeoutTimer/kRecvTimeoutTimer.c:249-351 | in a pass each request is acknowledged once, or kept, or taken off the list without a word because fetching its message failed: the multisets add up |
| RecvTimer.SweepIsJustified | koi-2.2.0/lib/kRecvTimeoutTimer/kRecvTimeoutTimer.c:231-351 | in microseconds: each acknowledgement of a pass hands out a message that belongs to its request or says that its time is up when its deadline is not after now; all that is still pending was there before and has its deadline after now |
| RecvTimer.OnlyWrongSocketsAreDropped | koi-2.2.0/lib/kRecvTimeoutTimer/kRecvTimeoutTimer.c:231-351 | a request is taken off without a word only for a negative, unknown or UNIX socket |
| RecvTimer.PassKeepsTailIff | koi-2.2.0/lib/kRecvTimeoutTimer/kRecvTimeoutTimer.c:379-397 | a pass leaves the tail pointer right if and only if the last request was removed, or it was right and those removed are the first ones |
| RecvTimer.TimerTable.ReceiveCommand | koi-2.2.0/lib/kDispatcher/kDispatcher.c:1597-1656 | a request is answered, refused, or made to wait; one that cannot wait is not answered |
| RecvRuns.DeliveredAtMostOnce | koi-2.2.0/lib/kData/kData.c:563-795 | at every moment of every run, each message handed out since ids last started again was received as it is, and was handed out once, to a command or in a pass |
| RecvRuns.DeliveredInOrder | koi-2.2.0/lib/kData/kData.c:563-795 | at every moment of every run, a socket that fetches its own messages has been given them, since ids last started again, in the order of arrival |
| RequestRuns.AnsweredAtMostOnce | koi-2.2.0/lib/kRecvTimeoutTimer/kRecvTimeoutTimer.c:111-424 | over every run, no request is acknowledged more often than it was made, counting those that still wait |
| RequestRuns.RequestsAreConserved | koi-2.2.0/lib/kRecvTimeoutTimer/kRecvTimeoutTimer.c:111-424 | over every run, the requests made are exactly those acknowledged, waiting, refused by kRecvTimerSet, dropped by a failed fetch, and lost from the list; none is lost if and only if every request made to wait finds the tail pointer right |
| RequestRuns.WaitingRequestIsLost | koi-2.2.0/lib/kRecvTimeoutTimer/kRecvTimeoutTimer.c:379-397 | six events after which a request is neither acknowledged nor waiting |
| RecvRuns.NoneWaitsInVain | koi-2.2.0/lib/kRecvTimeoutTimer/kRecvTimeoutTimer.c:231-351 | over every run, after a pass, there is no unread message that belongs to a request still waiting, and its deadline, in microseconds, is after now |
| RecvRuns.EveryAnswerIsJustified | koi-2.2.0/lib/kDispatcher/kDispatcher.c:1597-1656 | at every step of every run, what is acknowledged was asked or waiting; a message handed out belongs to its request by the sockets as they are at that step; a request is refused only for a negative, unknown or UNIX socket; and it is told that its time is up only in a pass that comes no sooner than its deadline |
| RecvRuns.AskingIsAnswered | koi-2.2.0/lib/kDispatcher/kDispatcher.c:1597-1656 | a request for which there is an unread message is answered at once, with one that is no newer |
| MessageRuns.MessagesAreConserved | koi-2.2.0/lib/kData/kData.c:146-461 | over every run, the messages registered since ids last started again are exactly those in the table, those cleared and those lost from the list; none is lost if and only if each finds the tail pointer right when it is registered |
| MessageRuns.ReadMeansHandedOut | koi-2.2.0/lib/kData/kData.c:563-795 | over every run, a message in the table that is no longer unread was handed out |
| MessageRuns.NothingIsMissing | koi-2.2.0/lib/kData/kData.c:146-461 | where nothing was cleared or lost, the table holds every message in its place |
| MessageRuns.NoneIsLost | koi-2.2.0/lib/kData/kData.c:227-461 | over every run without clears, each message is still in the table, unread or handed out |
| MessageRuns.NewMessageIsLost | koi-2.2.0/lib/kData/kData.c:146-461 | four events after which a registered message is neither in the table nor cleared |
| SocketTable.OpenKeeps | koi-2.2.0/lib/kSocket/kSocket.c:597-752 | opening a socket on a new descriptor keeps the table safe |
| SocketTable.ReopenKeepsIff | koi-2.2.0/lib/kSocket/kSocket.c:2859-2915 | opening on a descriptor that a living socket still has keeps the table safe if and only if that is the first entry that ever had it |
| SocketTable.OldEntryIsMarked | koi-2.2.0/lib/kSocket/kSocket.c:2859-2915 | two sockets for which it is not |
| SocketTable.AcceptKeepsIff | koi-2.2.0/lib/kSocket/kSocket.c:2578-2752 | accepting one keeps it safe if and only if the id limit is not reached |
| SocketTable.UnregisteredIsWatched | koi-2.2.0/lib/kSocket/kSocket.c:2578-2752 | a connection accepted at the limit, whose descriptor select watches and no socket has |
| SocketTable.SocketList.Accept | koi-2.2.0/lib/kSocket/kSocket.c:2578-2752 | registers an accepted connection with the next id, and at the limit only watches its descriptor |
| SocketTable.CloseKeeps | koi-2.2.0/lib/kSocket/kSocket.c:1516-1810 | closing keeps it safe, whichever closes fail |
| SocketTable.SocketList.MakeStatusClose | koi-2.2.0/lib/kSocket/kSocket.c:2859-2915 | marks the first entry that ever had the descriptor |
| SocketTable.SocketList.Close | koi-2.2.0/lib/kSocket/kSocket.c:1516-1810 | closes exactly the sockets of its pattern, takes exactly their descriptors out of select's set, and returns what the code returns |
| SocketTable.CloseOne | koi-2.2.0/lib/kSocket/kSocket.c:1743-1806 | closing a socket that is no TCP listener closes exactly it and takes exactly its descriptor out of select's set, and succeeds, if it is alive, no UNIX listener, and the system closes it; else it fails and changes nothing |
| SocketTable.CloseEverything | koi-2.2.0/lib/kSocket/kSocket.c:1570-1646 | closing id 0 closes exactly the living sockets that are neither kind of UNIX socket and that the system closes; select watches exactly those still alive |
| SocketTable.CloseUnknown | koi-2.2.0/lib/kSocket/kSocket.c:1531-1551 | closing an id that no socket has fails and changes nothing |
| SocketTable.CloseListenerExactly | koi-2.2.0/lib/kSocket/kSocket.c:1647-1741 | exactly which sockets closing a TCP listener closes, by their kind, parent and place in the table, whichever closes fail |
| SocketTable.SocketList.CloseListener | koi-2.2.0/lib/kSocket/kSocket.c:1647-1741 | the loop for a TCP listener, with the socket data left over from earlier rounds |
| SocketTable.ListenerIsGone | koi-2.2.0/lib/kSocket/kSocket.c:1647-1741 | after closing a TCP listener neither it nor any connection it accepted is alive, except those that the system failed to close |
| SocketTable.ClosesRightlyIff | koi-2.2.0/lib/kSocket/kSocket.c:1684-1712 | nothing else is closed if and only if, among the living sockets that the system closes, every TCP connection is the listener's own and no other TCP listener has one of its connections as the last living socket with a parent before it |
| SocketTable.BystandersAreClosed | koi-2.2.0/lib/kSocket/kSocket.c:1684-1712 | five sockets for which both go wrong |
| SocketTable.ServesListenerIff | koi-2.2.0/lib/kData/kData.c:677-749 | a message received on a TCP connection is for requests of the connection, and for those of a listener if and only if the connection is alive and the listener its parent |
| SocketTable.AcceptedServesListener | koi-2.2.0/lib/kSocket/kSocket.c:2578-2752 | so the messages of an accepted connection go to the listener that accepted it, until the connection is closed |
| SocketTable.RunKeepsSafeIff | koi-2.2.0/lib/kSocket/kSocket.c:194-2752 | over every run of opens, accepts and closes on fresh descriptors: after every event ids strictly increase, living sockets have distinct descriptors and select's set is exactly these descriptors, if and only if no connection is accepted at the id limit |
| Dispatch.Dispatcher.ReduceNfds | v6eval-3.3.2/lib/Cm/CmDispatch.cc:106-113 | the loop lowers nfds to just above the highest read or write handler |
| Dispatch.Dispatcher.LinkFd | v6eval-3.3.2/lib/Cm/CmDispatch.cc:98-104 | attaches the handler and raises nfds |
| Dispatch.Dispatcher.UnlinkFd | v6eval-3.3.2/lib/Cm/CmDispatch.cc:124-127 | detaches one mask and lowers nfds |
| Dispatch.Dispatcher.DetachFd | v6eval-3.3.2/lib/Cm/CmDispatch.cc:118-122 | detaches all masks and lowers nfds |
| Dispatch.Dispatcher.NotifyOne | v6eval-3.3.2/lib/Cm/CmDispatch.cc:156-167 | calls the handler if it is selected or ready, and acts on its status |
| Dispatch.NotifyingPlaysTheReply | v6eval-3.3.2/lib/Cm/CmDispatch.cc:156-167 | a linked handler that is selected or ready is called, and what it does and returns is next in the history; for any other, only its ready bit is cleared |
| Dispatch.Dispatcher.NotifyEach | v6eval-3.3.2/lib/Cm/CmDispatch.cc:169-173 | a pass, whose bound is read again in every round |
| Dispatch.Dispatcher.CheckConnections | v6eval-3.3.2/lib/Cm/CmFdMasks.cc:61-69 | drops the bad descriptors of the read mask and stale bits |
| Dispatch.Dispatcher.DispatchOnce | v6eval-3.3.2/lib/Cm/CmDispatch.cc:182-199 | failed selects, the one that succeeds, and a pass |
| Dispatch.DoKeepsSane | v6eval-3.3.2/lib/Cm/CmDispatch.cc:98-131 | link and unlink keep mask bits and handlers in step and read and write handlers below nfds |
| Dispatch.WaitedDropsExactly | v6eval-3.3.2/lib/Cm/CmFdMasks.cc:61-69 | while select fails, exactly the read handlers on descriptors found bad are dropped, and nothing else |
| Dispatch.ReportedIsCalled | v6eval-3.3.2/lib/Cm/CmDispatch.cc:156-199 | in one dispatch, each read or write handler that select reports for is called in the pass, or unlinked before; so is an exception handler below nfds at the end |
| Dispatch.CalledForAReason | v6eval-3.3.2/lib/Cm/CmDispatch.cc:156-199 | in one dispatch, a receiver is called only if its descriptor is ready from before, or was linked when select was called and is in the set that select reports for this very condition, or at or above nfds |
| Dispatch.CalledInOrder | v6eval-3.3.2/lib/Cm/CmDispatch.cc:169-173 | in one dispatch, each descriptor and condition is called at most once, lower descriptors first, reading before writing before exceptions |
| Dispatch.EveryCallHasAReason | v6eval-3.3.2/lib/Cm/CmDispatch.cc:156-199 | over every run, a dispatch calls a receiver only if the last status returned for the descriptor and condition was positive, or it was linked and select reports for it or has not looked at it |
| Dispatch.RunIsGood | v6eval-3.3.2/lib/Cm/CmDispatch.cc:98-227 | in every reachable state, under every interleaving of links, unlinks, callbacks and checkConnections: a mask bit is set iff a handler is stored, read and write handlers are below nfds, and every callback went to the receiver linked last |
| Dispatch.NoCallAfterCut | v6eval-3.3.2/lib/Cm/CmDispatch.cc:163-167 | after a negative status (or an unlink) there is no callback on the descriptor, on any mask, unless that handler was linked in between |
| Dispatch.PositiveIsCalledAgain | v6eval-3.3.2/lib/Cm/CmDispatch.cc:156-199 | a handler that returned a positive status is called again by the end of the next dispatch, whatever select reports, unless it is unlinked; for an exception handler, if it is below nfds at that end |
| Dispatch.ExceptCoveredIff | v6eval-3.3.2/lib/Cm/CmDispatch.cc:98-131 | exception handlers stay below nfds through every link and unlink call if and only if it does not unlink from the topmost descriptor, or leaves a read or write handler at or above each of them |
| Dispatch.DetachedCoversIff | v6eval-3.3.2/lib/Cm/CmDispatch.cc:118-122 | the same for the detaching that a negative status brings about |
| Dispatch.ExceptHandlerIsForgotten | v6eval-3.3.2/lib/Cm/CmDispatch.cc:106-113 | an exception handler that no pass reaches any more |
| Dispatch.StrayIff | v6eval-3.3.2/lib/Cm/CmDispatch.cc:163-167 | a positive status leaves a ready bit without a handler if and only if the callback unlinked itself |
| Dispatch.RunIsTidy | v6eval-3.3.2/lib/Cm/CmDispatch.cc:156-199 | over every run in which each callback that returned a positive status was still linked by then, no ready bit is without a handler |
| Dispatch.StrayStays | v6eval-3.3.2/lib/Cm/CmDispatch.cc:169-199 | once nfds is 0, such a bit, on any mask, stays through every later dispatch, and select is never told to wait |
| Dispatch.SelfUnlinkLeavesStray | v6eval-3.3.2/lib/Cm/CmDispatch.cc:163-173 | a single reader that gets the dispatcher there |

## Left out

- TrieLookup.LookupIsSound: on tries of more than three levels only for overlap-free ways, and ThreeNodesSoundIff for ways of three nodes; a longer way may be read wrongly in between and still end at the right node.
- TrieLookup.LookupIsExactIff: only for overlap-free ways, for the same reason; ShortWaysAreFound and ThreeNodesExactIff have no such condition.
- TrieLookup.LookupIsExactEverywhereIff: only for overlap-free tries; ThreeLevelsExactEverywhereIff has the other condition for tries of three levels.
- TrieInsert.Add: not the empty string into an empty ring, where addTokenString (CmMatch.cc:123-134) finds mi and ti both 0 and takes the ring head for a node; what it does with that memory is not defined. The empty string into any other ring is covered.
- TokenHeap.AddTokenString: not the empty string into an empty ring, for the same reason.
- TokenHeap.AddTokens: no run that starts with the empty string on an empty ring, for the same reason.
- GapList.BtList.Insert: into a full list that holds nulls, not at an index beyond its non-null elements: growing drops the nulls, and rightToLeft (BtList.cc:78-84) then starts reading and writing one past the slot array.
- GapList.BtList.Append: not to a full list that holds nulls, whose old length is such an index.
- GapList.BtList.AddIfAbsent: the same, for an element that has to be added.
- MessageTable.DataTable.RegistData: without the ports, addresses, address family and time stamp that the code stores with a message.
- MessageTable: fetching by data id.
- Reassembly: reading after the merge buffer of 65536 bytes (a caller must not fill it further), the SIP parser, and the parsers that report no size.
- RecvTimer: the encoding of acknowledgements and what the client does with them.
- SocketTable: lookups by id and by handle (MessageTable takes the table as a map), reuse of UDP sockets, and everything the open functions do before the descriptor is there.
- Dispatch: timers (their callbacks may link and unlink between passes, as the runs allow), performance records, and a null handler handed to link, which sets a mask bit without a handler, and a callback that itself calls dispatch.
- GapList: deleteContents, the constructors over element lists, and the width of u_long.
- TokenHeap: destructors, and the static ring that addToken uses when it is given none.
- All of koi-1.1.1, the other koi tables (close timers, parsers, interfaces, logs), the packet compiler, TLS, address handling and ICMP.
- Memory: allocation never fails, and freeing is not modelled.
