# Verified model of the taningia cores

taningia is a C library for XMPP and Atom. This project models its four algorithmic cores in Dafny and proves what
they compute:

* the doubly linked list and its bottom-up merge sort (`src/list.c`),
* the hash table whose pairs share one circular list (`src/hashtable.c`),
* the weighted ordering of SRV targets after "The format of the SRV RR" in RFC 2782 (`src/srv.c`),
* the IRI parser and printer (`src/iri.c`).

`dafny verify dfyconfig.toml` checks everything.

## How it is built

Each core has a part on values, which says what the code computes and carries the theorems, and a part in the form of
the source, whose methods rewrite nodes, tables, fields and buffers in place and are proved to compute exactly that.

| source | values and theorems | in place |
|---|---|---|
| `src/list.c` | `Sorting.dfy` | `LinkedList.dfy` |
| `src/srv.c` | `Srv.dfy` | `SrvOrder.dfy` |
| `src/hashtable.c` | `HashSpec.dfy`, `HashLedger.dfy` | `HashLinks.dfy`, `HashTable.dfy` |
| `src/iri.c` | `IriSpec.dfy`, `IriRoundTrip.dfy`, `IriAuthority.dfy`, `IriAccept.dfy`, `IriMeaning.dfy` | `Iri.dfy` |

Long C functions are split into methods along their loops, with the same branches in the same order.

**Lists.** A list operation takes the sequence `s` of its nodes as a ghost argument; `Chain(head, s)` says that the
`next` and `prev` fields realise it. `LinkedList.Sort` leaves the chain `Sorting.Sort(s, cmp)`, for every comparator.
If the comparator is a total preorder, that sequence is ordered, a permutation, stable, and equal to the result of
insertion sort. The number of passes and of comparator calls is counted along the run. The header comment of
`ta_list_pop` (`include/taningia/list.h:168`) speaks of the first element; the model follows the code, which removes
the last.

**SRV.** Randomness is an input: a `Source` fixes a draw for every step and every sum of weights. `Schedule` is the
resulting run of selections. `SrvOrder.OrderTargets` produces exactly its winners, and `ScheduleIsCorrect` says what
every run does. It needs every draw in `0..sum`. The program truncates a product computed in single precision:
`ScanLeavesGroupAtSumPlusOne` shows, for any such product however it was rounded, that the scan leaves the priority
group exactly if the product reaches `sum + 1`. Without rounding that is exactly if the quotient is 1
(`ScanLeavesGroupAtQuotientOne`).

**Hash table.** `HashSpec` is a machine over the pairs in list order. Key equality is any equivalence under which equal
keys hash equally. Over every run the machine answers like a map; all a run needs is that no `set` meets a full table
that is at the last bucket count (`RunRoom`). The class `HashTable` performs exactly the steps of the machine, on
contiguous bucket segments and with the rehash in place. `HashLedger` accounts for the calls of `free_key` and
`free_value`.

**IRIs.** `Parse` and `Render` say what the two C functions compute, including the fields that a failed parse leaves
behind, delimiters taken from the wrong component, and `strndup` with a negative length. `IriMeaning` tells the same of
every string by the first positions of its delimiters, and `IriSpec.RenderSpelledOut` of every printed text by its
pieces. The round trip is *not* true
of all records: `http://h/p?q` comes back with the host `h/p` (`IriAuthority.PathAndQueryWithoutPort`), and a port of
four digits does not fit the local buffer of the printer (`IriAuthority.FourDigitPort`).
`IriAuthority.RoundTripExact` says of every record, without exception, whether it survives; `Iri.Reread` states the
same of the objects. For components that hold no delimiters, `IriAuthority.AuthorityRoundTrip` puts the condition
more simply.

## Model

| member | source | states |
|---|---|---|
| LinkedList.Emit | src/list.c:372-379 | a node becomes the last of the output, linked in both directions; its own `next` is untouched |
| LinkedList.Choose | src/list.c:342-370 | the next node comes from the left run unless that is used up or its head is strictly greater |
| LinkedList.MergeStep | src/list.c:340-380 | one round of the inner loop keeps the merge invariant, the nodes still to come and the count of comparator calls |
| LinkedList.MergeRuns | src/list.c:340-380 | the inner loop leaves the merge of the two runs behind the output, with the calls of that merge |
| LinkedList.Split | src/list.c:329-335 | the left run is the first `split_point` nodes or all of them, `q` starts the rest |
| LinkedList.MergePair | src/list.c:321-382 | one round of the middle loop: what is linked plus what is left to merge stays the same result |
| LinkedList.MergePairs | src/list.c:316-382 | the middle loop merges all neighbouring runs; `nmerges` counts the pairs |
| LinkedList.MergePass | src/list.c:316-387 | a pass yields a well-formed list, and needed at most one merge exactly if two runs cover the list |
| LinkedList.SortPasses | src/list.c:313-390 | the passes with doubling run length end in the sorted chain, with the stated numbers of passes and calls |
| LinkedList.Sort | src/list.c:302-391 | every list and comparator: termination, a well-formed chain of the sorted sequence, exact counts of passes and calls |
| Sorting.SortOrders | src/list.c:357-370 | for a total preorder the result is ordered |
| Sorting.SortPermutes | src/list.c:302-391 | the result holds exactly the original nodes, whatever the comparator answers |
| Sorting.MergeOrdered | src/list.c:340-380 | merging two sorted runs gives a sorted run |
| Sorting.MergeClass | src/list.c:357-363 | a merge lists tied nodes as those of the left run followed by those of the right run |
| Sorting.PassDoublesRuns | src/list.c:321-389 | if all aligned blocks of `w` nodes are sorted, after a pass all those of `2 * w` are |
| Sorting.SortIsStable | src/list.c:357-363 | every class of tied nodes comes out in its original order |
| Sorting.SortKeepsOrderOfTies | src/list.c:357-363 | of two tied nodes, one is before the other afterwards exactly if it was before |
| Sorting.OrderedStableUnique | src/list.c:302-391 | there is only one ordered and stable arrangement of a list |
| Sorting.SortIsInsertionSort | src/list.c:302-391 | the merge sort computes what insertion sort computes |
| Sorting.RunsAtEveryPass | src/list.c:314-316 | at the start of every pass each aligned block of `split_point` nodes is a sorted run |
| Sorting.SortIsAfterPasses | src/list.c:313-390 | the result is the list after the counted number of passes with run lengths 1, 2, 4, ... |
| Sorting.PassesIsLeastLog | src/list.c:385-389 | the number of passes is the least `k` with `2^k >= n` |
| Sorting.SortCostBound | src/list.c:357-357 | at most `k * (n - 1)` comparator calls |
| LinkedList.First | src/list.c:44-54 | from any node, the first node |
| LinkedList.LastNode | src/list.c:56-66 | from any node, the last node |
| LinkedList.Append | src/list.c:78-108 | a new last node with the data, links kept; NULL data changes nothing |
| LinkedList.Join | src/list.c:135-138 | the two writes turn two well-formed lists into the well-formed concatenation |
| LinkedList.Extend | src/list.c:127-141 | concatenation, with the cases of an empty list on either side |
| LinkedList.LinkBefore | src/list.c:194-199 | four writes put a new node before an inner node |
| LinkedList.Insert | src/list.c:165-213 | at a position inside the list, 0 included, the new node stands there between what was before and behind it; past the end or negative it is appended, and then NULL data is dropped unless the list is empty |
| LinkedList.Rewire | src/list.c:225-237 | the neighbours skip the node, the node keeps its own links, the head moves on if it was the node |
| LinkedList.SkippingChain | src/list.c:225-237 | links that skip one node are a well-formed list of the others |
| LinkedList.Find | src/list.c:218-222 | the first node with the data, or none |
| LinkedList.Remove | src/list.c:215-248 | exactly the first node holding the data goes, and comes out with its own links |
| LinkedList.Pop | src/list.c:250-279 | from any node, the last node goes, and comes out unlinked; the list is NULL if it was that node |
| LinkedList.ReversedChain | src/list.c:287-290 | links that all point the other way are the well-formed reversed list |
| LinkedList.Reverse | src/list.c:281-293 | the nodes in reverse order, links kept |
| LinkedList.ReversedTwice | src/list.c:281-293 | reversing twice gives the original order, node for node |
| Srv.CmpTargetsPreorder | src/srv.c:40-51 | the comparator of the targets is a total preorder |
| Srv.KeysAreFields | src/srv.c:43-50 | the keys of a node are the priority and the weight of the target it holds |
| Srv.ArrangedIsOrdered | src/srv.c:40-51 | sorted by the comparator means by priority key, and by weight key inside a priority |
| Srv.ArrangedInFields | src/srv.c:40-51 | the same over the fields of the targets |
| Srv.PickWindow | src/srv.c:156-163 | the draws that select a target: above the running sum before it, up to the one that includes it |
| Srv.PickIsFirstReached | src/srv.c:156-163 | the selected target is the first whose running sum is at least the draw, for every group and draw |
| Srv.PickStaysInGroup | src/srv.c:157-163 | the scan ends inside the group exactly if the draw does not exceed its weight sum |
| Srv.DrawsPartition | src/srv.c:152-176 | of the draws `0..sum`, each target is selected by as many as its weight, the first by one more |
| Srv.DrawsCover | src/srv.c:152-176 | a draw selects some target of the group exactly if it is in `0..sum` |
| Srv.DrawRange | src/srv.c:156-156 | the draw is in `0..sum` exactly if the computed product is below `sum + 1` |
| Srv.DrawOfProduct | src/srv.c:156-156 | without rounding, the draw is `d` exactly if quotient times `sum + 1` lies from `d` up to `d + 1` |
| Srv.ScanLeavesGroupAtSumPlusOne | src/srv.c:156-163 | for any computed product, the scan leaves the group exactly if it reaches `sum + 1` |
| Srv.ScanLeavesGroupAtQuotientOne | src/srv.c:156-163 | for an exact product, exactly if the random quotient is 1 |
| Srv.ProductsAreInRange | src/srv.c:156-156 | all draws of a run are in range exactly if no computed product reaches `sum + 1` |
| Srv.QuotientsAreInRange | src/srv.c:156-156 | for exact products, all draws of a run are in range exactly if no quotient is 1 |
| Srv.FairPick | src/srv.c:127-163 | a positive draw takes a target of positive weight, a draw of 0 one of least weight |
| Srv.SelectPermutes | src/srv.c:131-177 | a run takes every target exactly once |
| Srv.SelectIsFair | src/srv.c:131-177 | every selection of every run is fair in that sense |
| Srv.SelectByPriority | src/srv.c:131-177 | no selection is followed by one of smaller priority |
| Srv.SelectTakesWholeGroups | src/srv.c:133-150 | each selection is made from all targets of its priority that are still to come |
| Srv.SelectIsDrawn | src/srv.c:152-176 | every selection uses the draw of its step for its weight sum, and takes the target that draw reaches in the group ordered by weight |
| Srv.ScheduleIsCorrect | src/srv.c:119-177 | permutation, priority order, fairness, whole groups and draws, for all targets and all draws in range |
| Srv.ScheduleInFields | src/srv.c:119-177 | order and fairness of every run in the fields `priority` and `weight` of the targets |
| SrvOrder.MeasureGroup | src/srv.c:133-150 | the size and the weight sum of the group of the first priority |
| SrvOrder.Scan | src/srv.c:156-163 | the scan ends at the selected node, inside the group |
| SrvOrder.LinkOut | src/srv.c:169-172 | the winner is linked in behind the output |
| SrvOrder.Move | src/srv.c:165-173 | the winner leaves the list and ends the output chain, although its old `next` is stale |
| SrvOrder.SelectOne | src/srv.c:156-175 | one selection keeps the sum of the group and the order still to come |
| SrvOrder.DrainGroup | src/srv.c:154-176 | the loop over a priority takes exactly its targets |
| SrvOrder.DrainAll | src/srv.c:131-177 | a NULL-terminated chain of the winners in order |
| SrvOrder.SortAndDrain | src/srv.c:127-179 | sort and loops leave the NULL-terminated `next` chain of the schedule's winners |
| SrvOrder.OrderTargets | src/srv.c:127-179 | the returned `next` chain is NULL-terminated, lists the winners of the schedule, and holds every target once, in the order of the `priority` fields |
| HashSpec.PrimesIncrease | src/hashtable.c:67-72 | 29 bucket counts from 5 to 1610612741, each greater than the one before |
| HashSpec.FindIsKeyIndex | src/hashtable.c:94-95 | comparing hashes first never hides a pair with an equal key |
| HashSpec.PlaceContiguous | src/hashtable.c:52-65 | inserting in front of a bucket keeps every bucket one stretch of the list |
| HashSpec.PlacedInFront | src/hashtable.c:52-65 | a new pair stands right before the first pair whose hash falls in its bucket, or at the end of the list |
| HashSpec.RehashInOrder | src/hashtable.c:164-172 | rehashing puts the pairs into the empty table one after the other, in list order |
| HashSpec.RehashIsCorrect | src/hashtable.c:143-175 | rehashing keeps the pairs and all answers, and re-establishes the bucket segments at the new size |
| HashSpec.GrowIsCorrect | src/hashtable.c:257-260 | one rehash always makes room for one more pair, and changes no answer |
| HashSpec.GrowsIfFull | src/hashtable.c:257-258 | the table grows, by one bucket count, exactly if it is full |
| HashSpec.DeleteIsCorrect | src/hashtable.c:106-141 | the invariant is kept and exactly the keys equal to the given one lose their value |
| HashSpec.PutIsCorrect | src/hashtable.c:246-278 | the invariant is kept and exactly the keys equal to the given one get the new value |
| HashSpec.StepRefines | src/hashtable.c:246-318 | each operation acts and answers like the same operation on a map |
| HashSpec.RunRefinesMap | src/hashtable.c:246-318 | over every run with room at each set, the table keeps its invariant and answers like the map |
| HashSpec.FreshTableIsAMap | src/hashtable.c:200-318 | the same from the empty table |
| HashSpec.FewSetsHaveRoom | src/hashtable.c:67-72 | a run that hands in no more pairs than the last bucket count has room throughout, however many lookups and deletions it makes |
| HashLedger.DeleteKeepsAccounts | src/hashtable.c:132-138 | deletion moves a key and a value from the live ones to the released ones |
| HashLedger.RehashKeepsBag | src/hashtable.c:164-172 | rehashing loses and duplicates nothing |
| HashLedger.PutBalances | src/hashtable.c:246-278 | a set adds exactly what was handed in to the live and released ones |
| HashLedger.RunBalances | src/hashtable.c:107-141 | after every run, handed in = live + released, as multisets |
| HashLedger.ClosedTableReleasedAll | src/hashtable.c:228-244 | a run ended by close releases each key and value as often as it was handed in; a NULL callback gets nothing |
| HashLedger.IterationIsExact | src/hashtable.c:320-331 | the list meets every mapped key exactly once, with its value, and nothing else |
| HashLinks.ListInsert | src/hashtable.c:33-39 | the circular list with the node in front of the anchor |
| HashLinks.ListRemove | src/hashtable.c:41-45 | the circular list without the node |
| HashLinks.SlotFirstAfterWithout | src/hashtable.c:121-128 | taking out a pair moves the first position of its own bucket only |
| HashLinks.SlotLastAfterWithout | src/hashtable.c:121-128 | the same for the last position |
| HashLinks.BucketsAfterInsert | src/hashtable.c:52-65 | after the insertion every bucket points at the ends of its stretch |
| HashLinks.BucketsAfterRemove | src/hashtable.c:121-128 | after the removal every bucket points at the ends of its stretch |
| HashLinks.InsertToBucket | src/hashtable.c:52-65 | the node goes in front of its bucket, all buckets stay exact |
| HashLinks.RemoveFromBucket | src/hashtable.c:121-130 | the node leaves list and bucket, all buckets stay exact |
| HashLinks.FindPair | src/hashtable.c:81-104 | walking one bucket finds the first matching pair of the whole list, or tells that there is none |
| HashTable.Reinsert | src/hashtable.c:168-171 | one round of the rehash: old nodes not yet visited stay reachable, the new table grows by one pair |
| HashTable.Relink | src/hashtable.c:164-172 | the loop visits every old pair once and ends in a sound table of the rehashed pairs |
| HashTable.EmptyBuckets | src/hashtable.c:158-162 | new buckets that all point at the list head |
| HashTable.HashTable.constructor | src/hashtable.c:200-226 | a valid empty table with five buckets |
| HashTable.HashTable.FreePair | src/hashtable.c:132-135 | a callback gets the key, or the value, exactly if it is not NULL |
| HashTable.HashTable.Release | src/hashtable.c:121-138 | a found pair leaves the structure and goes to the callbacks |
| HashTable.HashTable.DoDel | src/hashtable.c:106-141 | the deletion step, and whether the key was found |
| HashTable.HashTable.DoRehash | src/hashtable.c:143-175 | the pairs are rehashed to the next bucket count in a sound structure |
| HashTable.HashTable.GrowIfFull | src/hashtable.c:257-260 | the growing step, and validity |
| HashTable.HashTable.Add | src/hashtable.c:262-276 | a new pair in front of its bucket, in a sound structure |
| HashTable.HashTable.MakeRoom | src/hashtable.c:254-260 | an old pair goes, and a full table grows |
| HashTable.HashTable.Set | src/hashtable.c:246-278 | validity, the new state is that of the machine, and the bucket count grows exactly if the table is full without the key |
| HashTable.HashTable.GetTest | src/hashtable.c:280-296 | the value stored under a key, or that there is none |
| HashTable.HashTable.Get | src/hashtable.c:298-312 | the value stored under a key, NULL if there is none |
| HashTable.HashTable.Del | src/hashtable.c:314-318 | validity, the deletion step, and success exactly if the key was mapped |
| HashTable.HashTable.IterNext | src/hashtable.c:325-331 | the next pair in list order, NULL behind the last |
| HashTable.HashTable.Iter | src/hashtable.c:320-323 | the first pair, NULL for an empty table |
| HashTable.HashTable.Walk | src/hashtable.c:320-331 | following the iterators ends after exactly `size` steps with all pairs in list order |
| HashTable.HashTable.Close | src/hashtable.c:228-244 | every remaining key and value goes to its callback once |
| HashTable.HashTable.Perform | src/hashtable.c:246-318 | any run of operations on the object is the run of the machine, replies included |
| IriSpec.RenderSpelledOut | src/iri.c:212-278 | the printed text, piece by piece, in the fields |
| IriSpec.BufferIsEnough | src/iri.c:181-210 | the allocated size is text and NUL and what the separator and the port leave of seven characters, so it suffices exactly if the port fits that |
| IriSpec.BufferHoldsFourDigits | src/iri.c:181-279 | it does for every combination of fields with a port of 0 to 9999 |
| IriSpec.DigitsLength | src/iri.c:253-254 | the printed port has at most `k` digits exactly if it is below `10^k` |
| IriSpec.AtoiOfDigit | src/iri.c:429-429 | the ten digits have their values |
| IriSpec.AtoiByPlace | src/iri.c:429-429 | each digit further to the left is worth ten times as much |
| IriSpec.AtoiOfLeadingZero | src/iri.c:426-429 | leading zeros are worth nothing |
| IriSpec.AtoiOfDigits | src/iri.c:253-253 | the printed digits of a number have its value |
| IriSpec.DigitsOfAtoi | src/iri.c:253-253 | digits without a leading zero are what is printed for their value |
| IriSpec.DecimalIs | src/iri.c:253-253 | a printed port is a sign if negative, then digits without leading zeros that have its value |
| IriRoundTrip.ParseAfterScheme | src/iri.c:296-326 | a well-formed scheme before a colon is what the parser takes for the scheme |
| IriRoundTrip.ParseTailShape | src/iri.c:328-350 | query and fragment account for the text from the first `?` or `#` on, and have the shapes the scan leaves |
| IriRoundTrip.OpaqueStringReproduced | src/iri.c:483-494 | every accepted string without `//` behind the scheme colon is printed back exactly |
| IriRoundTrip.OpaqueRoundTrip | src/iri.c:483-494 | a record without host survives printing and parsing exactly if it has the stated shape |
| IriAuthority.TailIff | src/iri.c:328-350 | query and fragment come back exactly if no earlier `?` or `#` is taken for theirs |
| IriAuthority.UserIff | src/iri.c:373-381 | the user comes back exactly if it holds no `@` or, without one, nothing behind it does; the port scan then starts behind it |
| IriAuthority.PathBehind | src/iri.c:432-465 | with no slash before it, a path comes back exactly if it starts with one and holds no `?` or `#` |
| IriAuthority.PathBefore | src/iri.c:432-465 | a slash before the path starts the parsed path, which is the path only if a delimiter ends it in time |
| IriAuthority.PathIff | src/iri.c:432-465 | the path comes back exactly under `PathSurvives` |
| IriAuthority.StopInHost | src/iri.c:383-398 | a colon in the host cuts it short, a `#` hides the port behind it |
| IriAuthority.PositivePort | src/iri.c:383-430 | a printed port is found behind the host with all its digits, and ends the host |
| IriAuthority.NegativePort | src/iri.c:411-424 | a printed negative port is rejected |
| IriAuthority.PortNonZero | src/iri.c:383-430 | a port other than 0 comes back, with the host, exactly if it is positive and no colon or `#` precedes it |
| IriAuthority.NoPortAt | src/iri.c:383-398 | without a printed port, one is found behind the host exactly if the path holds a colon |
| IriAuthority.NoPortIff | src/iri.c:383-398 | without a printed port, none is found exactly if neither host nor path offers a colon to the scan |
| IriAuthority.HostRunsToTail | src/iri.c:472-481 | without a port, and with a query or fragment, the parsed host is host and path together |
| IriAuthority.HostRunsToPath | src/iri.c:472-481 | without a port, query and fragment, the host ends where the path starts |
| IriAuthority.HostSwallowsPath | src/iri.c:472-481 | without a port, a path with a query or fragment behind it comes back as part of the host |
| IriAuthority.FieldByField | src/iri.c:282-497 | the whole record comes back exactly if every field does |
| IriAuthority.AuthorityFields | src/iri.c:373-482 | on every object, a failed authority leaves the user set and nothing else; a success sets the host, and user, port and path if found |
| IriAuthority.RoundTripExact | src/iri.c:164-497 | every record survives printing and parsing if and only if it satisfies the stated condition on its fields |
| IriAuthority.AuthorityRoundTrip | src/iri.c:164-497 | a record whose components hold no delimiters, ports up to 999 included and greater ones excluded, survives if and only if `Recoverable` holds |
| IriAuthority.PathAndQueryWithoutPort | src/iri.c:472-481 | a concrete well-formed record that comes back with another host |
| IriAuthority.FourDigitPort | src/iri.c:249-254 | a concrete well-formed record that cannot be printed |
| IriAccept.SchemeTextIs | src/iri.c:298-315 | the scheme characters are exactly the letters, digits, `+`, `-` and `.` of section 3.1 of RFC 3986, starting with a letter |
| IriAccept.SucceedsExactlyOnAccepted | src/iri.c:298-424 | success exactly if such a scheme stands before a colon and a port colon of the authority is followed by one of `0123456789` |
| IriAccept.ColonIsBehindRun | src/iri.c:306-322 | the scheme loop ends at the one colon with only such characters before it |
| IriAccept.AuthorityAccepted | src/iri.c:373-424 | the authority fails exactly on a port colon without a digit |
| IriAccept.HostStartIsUnique | src/iri.c:373-381 | the port scan starts behind the first `@`, or at the start |
| IriAccept.PortColonIsUnique | src/iri.c:383-398 | the port colon is the first of `:`, `?`, `#` from there on, if it is a colon |
| IriMeaning.TailByPositions | src/iri.c:328-350 | query and fragment of every text, by the first `?` and the first `#` behind it |
| IriMeaning.AuthorityByPositions | src/iri.c:373-482 | for every authority and every earlier record, what a success stores and a failure leaves, by the first positions of its delimiters |
| IriMeaning.PositionsOf | src/iri.c:373-476 | every authority has such positions |
| IriMeaning.ParseByPositions | src/iri.c:296-497 | without a scheme nothing changes; behind one, an authority or a path is read |
| Iri.ScanScheme | src/iri.c:306-322 | the scheme loop ends at a colon with only letters, digits, `+`, `-` and `.` before it, or fails if there is none |
| Iri.ScanPort | src/iri.c:383-398 | the port loop finds the port colon of the text from its start |
| Iri.CountDigits | src/iri.c:411-416 | the number of digits in front |
| Iri.PathLength | src/iri.c:456-464 | the distance to the next `?`, `#` or end |
| Iri.Iri.constructor | src/iri.c:46-57 | all fields empty |
| Iri.Iri.SetTail | src/iri.c:328-350 | query and fragment fields, and the positions used later for the host end |
| Iri.Iri.SetPort | src/iri.c:383-430 | the port field, failure without digits |
| Iri.Iri.SetPath | src/iri.c:432-465 | the path field |
| Iri.Iri.SetAuthority | src/iri.c:361-482 | all fields of an authority, and those left behind by a failure |
| Iri.Iri.SetOpaquePath | src/iri.c:483-494 | without an authority, all up to the query or fragment is the path |
| Iri.Iri.SetFromString | src/iri.c:282-497 | success exactly on the accepted strings; result and all fields are those of `Parse` on the string and the old fields |
| IriSpec.PortFitsLocalBuffer | src/iri.c:249-254 | the local buffer of four characters holds the port exactly from -99 to 999 |
| Iri.RenderLength | src/iri.c:212-278 | the length of the text is the sum of the pieces written |
| Iri.FormatPort | src/iri.c:249-254 | the decimal text of the port, through the local buffer |
| Iri.Iri.SumSizes | src/iri.c:181-209 | the size computed field by field is `BufferSize` |
| Iri.Iri.PrintAll | src/iri.c:212-276 | the pieces, written one behind the other, are the text of `Render`; the final position is its length |
| Iri.Iri.ToString | src/iri.c:164-280 | a fresh buffer of the computed size that holds the pieces, written out in the fields, and a NUL, never written out of bounds |
| Iri.ReadString | src/iri.c:278-280 | the buffer is read back up to its NUL as the text that was printed |
| Iri.Reread | src/iri.c:164-497 | an object printed and parsed into a fresh one agrees with it exactly under the condition of `RoundTripExact` |

## Left out

- The DNS half of `ta_srv_query_domain` (`src/srv.c:71-117`) and the target getters: the model starts from the list of distinct targets.
- How single precision rounds `(float) rand () / (float) RAND_MAX` and its product with `sum + 1`: the computed product is any real number. It can reach `sum + 1` for values of `rand ()` below `RAND_MAX` too.
- SrvOrder.OrderTargets: says nothing about the `prev` links of the returned chain, because `src/srv.c:169-173` does not maintain them.
- LinkedList.Remove: requires the first node, because the C code breaks the links before an inner node if that is the node removed (`src/list.c:232-237`).
- LinkedList.Insert: requires the first node, because the C code breaks the links before an inner node at position 0 (`src/list.c:181-187`).
- LinkedList.Reverse: requires the first node; the C code does not unlink an inner node from those before it.
- LinkedList.Sort: the same.
- `ta_list_new`, `ta_list_free`, `ta_list_len`, `ta_list_count`, `ta_list_index`, `ta_list_item` and `ta_list_prepend`: simple walks, or calls of modelled operations.
- The `data` field of a list node is constant, because the list code sets it only in new nodes; a comparator depends on the two nodes and not on their links.
- Allocation failure everywhere, and the use of memory after it is freed; `free` of a node, a pair or a string is not modelled. What a table hands to `free_key` and `free_value` is recorded.
- HashTable.HashTable.Set: requires that the table need not grow past the last of the bucket counts, because the C array has no entry there. `RunRoom` asks the same of the sets of a run, and nothing of its other operations.
- `container_of`: a link of the circular list carries its pair as an optional constant, the list head carries none.
- Hashes and sizes are unbounded natural numbers; in C they are `unsigned int`.
- `hashtable_create`, `hashtable_destroy` (`src/hashtable.c:178-198`) and the getters of an iterator (`src/hashtable.c:333-343`).
- Iri.Iri.ToString: requires a port of at most three characters, since a longer one overruns the local buffer of `src/iri.c:249`.
- Iri.Iri.PrintAll: the same.
- Iri.FormatPort: the same.
- Iri.Reread: requires the same, and fields that are C strings, without a NUL inside.
- Overflow of `atoi` and of `int` lengths, locales other than C for `isalpha` and `isdigit`, and the error object set by `ta_error_set`.
- The branch of `src/iri.c:443-449` that rejects a path without a slash: the path is found by looking for a slash, so it cannot be taken.
- The IRI getters and setters and the tag functions (`src/iri.c:499-635`).
- `src/buf.c`, `src/log.c`, `src/error.c`, `src/global.c`, `src/object.c`, `src/atom.c`, `src/pubsub.c` and `src/xmpp.c`.
