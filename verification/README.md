# Verification of msgbox and cstructs

msgbox sends messages over TCP and UDP from a single-threaded run loop; it stands on the hash map, list and
array of cstructs. This project models the parts of both that carry state, and proves what a user of them
relies on. `dafny verify dfyconfig.toml` checks everything.

| file | subject |
|---|---|
| `HashTable.dfy`, `HashMap.dfy` | the chained hash map on linked lists in the heap: link surgery, the rehash that moves pairs while it iterates, iteration, release |
| `MapRuns.dfy` | runs of map operations: a finite map, exactly-once release, growth |
| `MapClients.dfy` | the hash and eq functions with which msgbox uses the map |
| `ByteArray.dfy` | the growable byte array as a sequence of items |
| `Framing.dfy`, `TcpStream.dfy` | TCP framing: partial sends, split headers, chunked payloads, end to end |
| `TcpShared.dfy` | several TCP conns to one address, which share the receive buffers |
| `Requests.dfy`, `RequestTable.dfy` | gets, replies and timeouts: the protocol as a state machine, and the program that takes its steps |
| `Drain.dfy` | removal of several conns by swapping with the last |
| `Lifecycle.dfy`, `RunLoop.dfy` | the event stream per address; conns, poll slots, removals and deferred callbacks over any run |
| `Callbacks.dfy` | what a callback finds in its conn: reply ids, reply contexts, conn contexts |
| `AddressText.dfy` | addresses as text and back |
| `Common.dfy` | shared types and sequence facts |

An operation of the source that changes state is a method on a class; its contract ties the new state to the
old one through a specification function or step relation, and the lemmas are about runs of those steps.
`MapRuns.Run`, `RequestTable.Run`, `RunLoop.Run`, `RunLoop.FollowGet`, `Callbacks.Run`, `TcpStream.EndToEnd` and
`TcpShared.Interleaved` drive the classes through arbitrary inputs and so connect the two. Sockets, poll, the
clock, the peer and the user's callbacks are arbitrary inputs.

## Where the code is not what it seems

Each of these is a theorem about the code as it stands, with the exact condition.

- **Draining removals.** Indices are recorded before any swap. Removals that come in ascending order, as the
  polling loop records them (`RunLoop.MarksAscend`), can drop a live conn and keep a closed one
  (`Drain.FirstAndLastOfThree`); the drain is right if and only if `Drain.OrderOk` holds
  (`Drain.DrainRemovesMarkedIff`, and in closed form for ascending lists `Drain.AscendingIff`). After a wrong
  drain a conn may be freed while it is still in the arrays (`freedEarly`). While all drains are in order that
  does not happen, and exactly the live conns remain.
- **Calls for freed conns.** The timeout loop follows `timeout->conn` even if that conn has been freed. With all
  drains in order, this is the one way to a call for a freed conn (`RunLoop.Loop.FreedCallsIff`); two inputs are
  `RunLoop.RefusedAfterGet` and `RunLoop.UnlistenedAfterGet`. It cannot happen if no conn is freed while a
  timeout of its own is in the queue.
- What `RunLoop` says about alignment, event order and callback order holds of the program up to the first of
  these two accidents, after which it works on freed memory.
- **Two TCP conns to one address** share its receive buffers. A conn that reads while another one's message is in
  them takes its own stream for the rest of that message (`TcpShared.TakesAnothers`), and a conn that ends drops
  it. `TcpShared.Remote.Read` and `TcpShared.Remote.Disconnect` say exactly when the conns stay in frame.
- **The end of a TCP stream** within a header is never reported: its 1 to 7 bytes are peeked at for ever
  (`TcpStream.LostAtEnd`).
- **The first event of a connect** is not msg_connection_ready, as `readme.md` promises, if the address already has
  a status, as after a refused udp connect (`RunLoop.ReadyOnConnectIff`, `RunLoop.ConnectAgain`).
- **reply_context and reply_id.** `readme.md` promises the right `reply_context` to every reply, and a
  `reply_id` of 0 to every event but a request. Both are fields set when the socket is read, while callbacks run
  at the end of the pass. `Callbacks.RepliesRightIff` and `Callbacks.IdsRightIff` say exactly when the promises
  are kept, `Callbacks.StaleContexts` and `Callbacks.StaleIds` give inputs that break them. Timeout errors get
  their context by the same fields, though the documentation does not promise it (`Callbacks.ExpiriesRightIff`).
- **Reply ids** wrap. A get whose id is still waiting makes the program forget the earlier get
  (`Requests.GetKeepsIff`). Up to 65,536 gets per status that cannot happen (`Requests.FewGetsAreFresh`), with
  one more it can (`Requests.OneGetMore`). The timeout queue suffers only from a second timeout for one id
  (`Requests.GetKeepsQueueIff`).
- **Unknown replies** end a pass: `read_from_socket` returns false after them, and messages queued behind wait
  for the next pass (`TcpStream.TcpConn.ReadAll`, `RunLoop.ReadRunHandsOn`).
- **Empty TCP payloads** make `recv` ask for 0 bytes. It is taken to return 0 then, which the source reads as a
  lost connection (`TcpStream.AllOrUpToEmpty`); a kernel may also report that it would block, and the message is
  then skipped in silence, which is not modelled.
- **The map** looks in one bucket only and compares an integer quotient with 2.5: the header comment of
  `cstructs/map.c` (probing several buckets, load 8) does not describe it (`HashMap.Map.LoadExceeded`).
- **reply_id_hash and reply_id_eq** disagree on pointers outside the 16-bit range; msgbox uses none
  (`MapClients.ReplyIdsAreConsistent`).
- **Addresses** with a protocol other than tcp or udp print as tcp (`AddressText.AddressRoundTrip`).

## Model

| member | source | states |
|---|---|---|
| HashTable.SlotIsRemainder | cstructs/map.c:140-145 | the bucket index is the remainder of the unsigned hash by the number of buckets |
| HashTable.SlotDoubles | cstructs/map.c:165-185 | a pair of bucket i of m belongs in bucket i or i + m of 2m, whatever its hash |
| HashTable.SplitKeepsAll | cstructs/map.c:168-185 | splitting a bucket keeps every pair, once, on the side its hash says |
| HashTable.DoublingKeepsPlacement | cstructs/map.c:165-185 | after doubling every pair lies in its bucket of the doubled table, none lost and none duplicated |
| HashTable.InsertionKeepsPlacement | cstructs/map.c:89-93 | pushing a new pair on the front of its bucket keeps every pair in its own bucket |
| HashTable.RemovalKeepsPlacement | cstructs/map.c:98-105 | taking one pair out of its list leaves every other pair placed and that one gone |
| HashTable.FlatVisitsEachOnce | cstructs/map.c:120-135 | the bucket-by-bucket order contains every pair of the map exactly once |
| HashMap.Map.constructor | cstructs/map.c:44-58 | a new map is valid, empty, with 16 buckets, for a hash and an eq that agree on the client's keys |
| HashMap.Map.ListInsert | cstructs/list.c:12-17 | the bucket gains the item in front; all other lists and their links are untouched |
| HashMap.Map.Store | cstructs/list.c:19-25 | writing through a `List *` changes exactly the bucket cell or the `next` field that it designates |
| HashMap.Map.ListRemoveFirst | cstructs/list.c:19-25 | removing through a link takes out exactly the entry it designates; all lists stay acyclic and disjoint |
| HashMap.Map.ListFindEntry | cstructs/list.c:55-62 | the result is the link of an entry with an eq key, or NULL when the list has none |
| HashMap.Map.MoveAcross | cstructs/map.c:178-180 | an entry is unlinked from one bucket and its pair pushed on another; the cursor link designates what followed it |
| HashMap.Map.SplitBucket | cstructs/map.c:169-181 | the inner loop ends; the pairs that stay keep their order, the others go to the one other bucket they can belong to |
| HashMap.Map.SplitNext | cstructs/map.c:170-181 | one round of the inner loop: the pair stays and the link moves on, or the pair moves and the link designates what followed it |
| HashMap.Map.SplitAt | cstructs/map.c:168-184 | visiting bucket i changes only buckets i and i + m, so no visited bucket is spoiled; visiting bucket m changes nothing |
| HashMap.Map.SplitAll | cstructs/map.c:168-184 | the outer loop goes through buckets 0 to m and ends; the pairs moved are those that leave their buckets |
| HashMap.Map.GrowBuckets | cstructs/map.c:166-167 | the bucket cells double, the old ones kept and the new ones zeroed |
| HashMap.HighSlots | cstructs/map.c:182-183 | bucket m holds only pairs pushed there that belong there, so stopping after it is sound |
| HashMap.Map.DoubleSize | cstructs/map.c:165-185 | the in-place rehash terminates, leaves exactly the doubled table, and moves the pairs counted by MovedUpTo |
| HashMap.Map.Resize | cstructs/map.c:165-185 | a resize keeps the map: same pair objects, same contents, all in their buckets; it moves at most count pairs |
| HashMap.MovedIsBounded | cstructs/map.c:165-185 | a resize moves no more pairs than the map holds |
| HashMap.Map.FindWithHash | cstructs/map.c:140-163 | looking in the one bucket of the hash finds the pair with an eq key if the whole map has one, and NULL only if it has none |
| HashMap.Map.Get | cstructs/map.c:107-110 | the pair with an eq key, holding what the abstract map says; NULL exactly when no key is eq |
| HashMap.Map.LoadExceeded | cstructs/map.c:86-87 | the integer quotient test doubles exactly when count + 1 >= 3 * buckets |
| HashMap.Map.MakeRoom | cstructs/map.c:86-87 | the table doubles exactly when the load test says so, keeping the map and the growth accounting |
| HashMap.Map.Replace | cstructs/map.c:69-79 | key and value of an existing pair are stored; a releaser sees the old pointer unless it is the one being stored |
| HashMap.Map.FileNew | cstructs/map.c:89-94 | the new pair is filed in its bucket; keys stay eq-free |
| HashMap.Map.Add | cstructs/map.c:80-95 | a fresh pair joins the map; nothing else changes, nothing is released; count, peak and insertions follow |
| HashMap.Map.Set | cstructs/map.c:65-96 | the map at the eq key becomes (key, value), in the same pair object if there was one; all other pairs unchanged; releases as documented |
| HashMap.Map.Unlink | cstructs/map.c:98-105 | one pair leaves its list and the map; the rest stays |
| HashMap.Map.Unset | cstructs/map.c:98-105 | the pair with an eq key, if any, leaves the map and is released once; otherwise nothing changes |
| HashMap.Map.ReleaseBucket | cstructs/list.c:45-53 | the list is released from its head, each pair once, and left empty |
| HashMap.Map.ReleaseBuckets | cstructs/map.c:112-118 | all buckets are released in order, each of their pairs once |
| HashMap.Map.Clear | cstructs/map.c:112-118 | the map is empty and valid; every pair has been released exactly once |
| HashMap.Map.Delete | cstructs/map.c:60-63 | every pair has been released exactly once through the array, bucket and list releasers; the buckets are gone |
| HashMap.Map.Advance | cstructs/map.c:120-135 | map__next yields the next pair of the order, skipping empty buckets, and NULL exactly at the end |
| HashMap.Map.ForEach | cstructs/map.h:50-54 | map__for over an unmodified map terminates and yields every pair exactly once |
| HashMap.EqFreeReplace | cstructs/map.c:69-79 | storing an eq key over a pair keeps the keys eq-free and its hash the same |
| MapRuns.SetAnswers | cstructs/map.c:65-96 | after a set, lookups of keys eq to it give the new record, all others are as before |
| MapRuns.UnsetAnswers | cstructs/map.c:98-105 | after an unset, lookups of keys eq to it find nothing, all others are as before |
| MapRuns.RunKeepsKeys | cstructs/map.c:65-118 | in every state of a run the keys are the client's and no two pairs have eq keys |
| MapRuns.LookupsAgree | cstructs/map.c:65-118 | after any run a lookup answers what the last set, unset or clear that concerns its key says |
| MapRuns.GetsAgree | cstructs/map.c:107-110 | every get in a run answers the last relevant operation before it |
| MapRuns.PairStays | cstructs/map.c:65-118 | a pair object stays in the map, under an eq key, through sets and resizes until an unset of an eq key or a clear |
| MapRuns.SetKeepsOnce | cstructs/map.c:69-79 | a set of fresh or re-stored pointers keeps the exactly-once release accounting |
| MapRuns.OnceClear | cstructs/map.c:187-199 | releasing all pairs in any order without repeats releases each held pointer once |
| MapRuns.ReleasedExactlyOnce | cstructs/map.c:187-199 | after any run on fresh pointers, every pointer is held by one pair and unreleased, or held by none and released exactly once; a delete is a last clear |
| MapRuns.Perform | cstructs/map.c:65-118 | each command on the heap map is the step of the run that its specification says |
| MapRuns.Run | cstructs/map.c:65-118 | any list of commands on a new map is a run; the map is valid at its end, and each get answered the last relevant command |
| MapRuns.Lifetime | cstructs/map.c:44-118 | a map from creation through any commands to map__delete is a run that ends with everything released |
| MapRuns.AllReleasedOnce | cstructs/map.c:60-63 | over that life, with fresh pointers, every pointer given is released exactly once and no other pointer is |
| MapRuns.GrowthBounds | cstructs/map.c:81-94 | 16 * 2^k buckets; count < 3 * buckets; more than 16 buckets only after a count of 3/2 of them; at most 2 moves per insertion |
| MapClients.ReplyIdsAreConsistent | msgbox/msgbox.c:534-542 | reply_id_hash and reply_id_eq agree on pointers that hold a 16-bit id, so maps work for them, and do not agree on all pointers |
| MapClients.AddressesAreConsistent | msgbox/msgbox.c:520-532 | address_hash and address_eq agree on all addresses |
| MapClients.HashWrapsOnce | msgbox/msgbox.c:520-528 | wrapping in every step of address_hash comes to wrapping its polynomial once, and the result is an int |
| ByteArray.Array.constructor | cstructs/array.c:17-34 | a new array is empty with capacity max(capacity, 1) |
| ByteArray.FlattenSplice | cstructs/array.c:88-129 | replacing items of a sequence is replacing the bytes at their offsets |
| ByteArray.Array.IndexOf | cstructs/array.c:115-118 | index_of inverts item_ptr for every item size |
| ByteArray.Array.ItemAt | cstructs/array.c:69-71 | the bytes at item_ptr(i) are item i |
| ByteArray.Array.Realloc | cstructs/array.c:79-83 | reallocation keeps the bytes; the items copied are counted |
| ByteArray.Array.NewPtr | cstructs/array.c:77-86 | one more item at the returned address; all others kept, across reallocation |
| ByteArray.Array.WriteItem | cstructs/array.c:73-75 | writing at an item address changes that item and no other |
| ByteArray.Array.AddItemPtr | cstructs/array.c:73-75 | the item is appended |
| ByteArray.Array.AppendArray | cstructs/array.c:107-113 | the other array is appended, item by item |
| ByteArray.Array.AddZeroedItems | cstructs/array.c:131-146 | n all-zero items are appended; the doubling loop ends |
| ByteArray.Array.RemoveItem | cstructs/array.c:120-129 | exactly the item at the address is removed, the rest in order; the releaser, if any, gets that item |
| ByteArray.Array.Clear | cstructs/array.c:36-43 | the array is empty; the releaser, if any, got every item once, in order |
| ByteArray.Array.InsertItems | cstructs/array.c:88-105 | prefix, new items, suffix, for items that lie outside the array |
| ByteArray.Array.GrowthBounds | cstructs/array.c:77-86 | count <= capacity <= max(first capacity, 2 * peak count); reallocations copied fewer than 2 * peak items |
| Framing.HeaderRoundTrip | msgbox/msgbox.c:896-906 | headers and 8-byte strings correspond one to one: writing and reading undo each other |
| Framing.NetworkOrder | msgbox/msgbox.c:971-974 | the fields of a header are the numbers that its first 2, next 2 and last 4 bytes spell, most significant byte first |
| Framing.RequestOnTheWire | msgbox/msgbox.c:896-906 | a request with id 7 and 5 bytes of payload begins with the bytes 0 1 0 7 0 0 0 5 |
| Framing.FrameIsPrefixFree | msgbox/msgbox.c:942-998 | frames are self-delimiting: streams that agree begin with the same frame |
| Framing.CompletedFramesArePrefix | msgbox/msgbox.c:1109-1143 | whatever prefix of the bytes was consumed, the completed frames are an in-order prefix of the sent list, and all of it at the end |
| Framing.NextHeader | msgbox/msgbox.c:942-998 | a header read after some complete frames is that of the next message sent |
| Framing.NothingLeftOver | msgbox/msgbox.c:1109-1143 | when all bytes have arrived and a receiver can read no more, every message is complete |
| TcpStream.SetHeader | msgbox/msgbox.c:896-906 | the 8 bytes before the payload spell message_type, reply_id and num_bytes in network order; payload and the rest of the buffer are left alone |
| TcpStream.SendAll | msgbox/msgbox.c:666-679 | over any schedule of partial sends and would-blocks, exactly the bytes that the kernel takes before it fails go out, in order; it succeeds exactly when that is all of header and payload |
| TcpStream.SendMessage | msgbox/msgbox.c:1539-1548 | sending puts exactly the part of the frame on the stream that the kernel takes; success exactly when that is the whole frame |
| TcpStream.SendList | msgbox/msgbox.c:666-679 | sends in turn put whole frames on the stream up to the first that does not get through, and of that one what the kernel takes; all the frames exactly on success |
| TcpStream.TcpConn.ReadHeader | msgbox/msgbox.c:942-998 | a header is taken exactly when a whole one is there, and its fields are the numbers its bytes spell in network order; a cut-off header stays queued; end of stream and reset lose the connection; a reported error changes nothing |
| TcpStream.ConnStatus.StoreBytes | msgbox/msgbox.c:1048-1049 | received bytes extend the partial message; waiting_buffer shrinks by their number and stays a suffix of total_buffer |
| TcpStream.TcpConn.ContinueRecv | msgbox/msgbox.c:1033-1051 | whole, pending, interrupted or failed, with the bytes taken added to the partial message or what was cut off told |
| TcpStream.ConnStatus.Drop | msgbox/msgbox.c:571-575 | the partial message is thrown away and the buffers are empty |
| TcpStream.ConnStatus.TakeMessage | msgbox/msgbox.c:1133-1141 | a message whose payload is complete has the frame that was in the buffers, which are then empty |
| TcpStream.TcpConn.Receive | msgbox/msgbox.c:1125-1141 | the rest of a call once the header is in: the bytes in the buffers and those taken stay there, become a message, or are what the end leaves |
| TcpStream.TcpConn.Begin | msgbox/msgbox.c:1109-1119 | a new receive has its header in and an empty buffer of the announced length, or a header of message type 4 ends the connection |
| TcpStream.TcpConn.ReadFromSocket | msgbox/msgbox.c:1109-1246 | what one call makes of any buffers, the conn's own message in them or another's: at most one message, its frame the bytes there and those taken; true exactly when it did and that was not a reply with an unknown id |
| TcpStream.TcpConn.ReadOwn | msgbox/msgbox.c:1109-1246 | when the message in the buffers is the conn's own, the bytes consumed stay the completed frames plus the partial one |
| TcpStream.ComesKeeps | msgbox/msgbox.c:1109-1143 | the frames of the messages completed and what remains are, before and after a call, the bytes consumed |
| TcpStream.TcpConn.ReadAll | msgbox/msgbox.c:1440-1444 | the loop ends; it has then read all that can be read, or stopped right after a reply with an unknown id, with the rest left for the next pass |
| TcpStream.Finish | msgbox/msgbox.c:1440-1444 | passes end, and leave nothing to read, however many replies stop them; after the end of the stream one more comes to it |
| TcpStream.CompletedIsPrefix | msgbox/msgbox.c:1109-1143 | for every chunking, the completed messages are an in-order prefix with equal type, id and payload; a live stream is given up only at an empty payload |
| TcpStream.AllOrUpToEmpty | msgbox/msgbox.c:1033-1051 | with everything arrived and nothing left to read, all messages are completed if and only if none has an empty payload |
| TcpStream.LostAtEnd | msgbox/msgbox.c:945-955 | after the end of the stream the conn is reported lost if and only if the stream does not end 1 to 7 bytes into a header |
| TcpStream.Deliver | msgbox/msgbox.c:1109-1246 | a new conn fed chunks of any size, as many bytes as they ask for, each read in a pass with any limits, failures and unknown replies, and then maybe the end of the stream, stays valid; passes at the end leave nothing readable |
| TcpStream.EndToEnd | msgbox/msgbox.c:942-1246 | sender and receiver together, for a conn alone at its remote address: everything arrives if every send gets through and the chunks are large enough; completed messages are a prefix of those sent, whatever happens; all of them, once everything arrived and no recv failed within a message, if and only if none is empty; and lost at the end of the stream exactly if that is not within a header |
| TcpShared.Remote.ReadAny | msgbox/msgbox.c:1109-1143 | a read on any conn of a remote address goes on with the message in the buffers of that address; a conn that ends takes the status away |
| TcpShared.Remote.Read | msgbox/msgbox.c:1109-1143 | a read keeps all conns of the address in frame if and only if no other conn has a message in the buffers, or there is nothing to read and nothing fails |
| TcpShared.Remote.Disconnect | msgbox/msgbox.c:920-936 | a disconnect keeps the other conns in frame if and only if none of them has a message in the buffers |
| TcpShared.Remote.Breaks | msgbox/msgbox.c:1109-1143 | no account of the buffers makes up for bytes that went into another conn's message |
| TcpShared.Happen | msgbox/msgbox.c:920-1143 | any arrival, end of stream, read or disconnect takes effect on its conn, and the conns get out of frame exactly when it disturbs another conn's message |
| TcpShared.UndisturbedIsPrefix | msgbox/msgbox.c:1109-1143 | while all are in frame, every conn of an address has completed an in-order prefix of what its peer sent |
| TcpShared.Interleaved | msgbox/msgbox.c:920-1143 | any interleaving of any number of conns to one address, with all of it happening: prefixes for all of them unless a message was disturbed, which never happens to a conn that is alone |
| TcpShared.TakesAnothers | msgbox/msgbox.c:1109-1143 | inputs that break it: the rest of one conn's payload is taken from another conn's stream and handed on there |
| Requests.GetKeepsIff | msgbox/msgbox.c:1550-1571 | a get keeps the bookkeeping if and only if the id it gives out is not still waiting; otherwise the earlier get is forgotten |
| Requests.GetOutcome | msgbox/msgbox.c:1550-1571 | a get on an address without a status only makes an error; any other stores its context under the next id, and waits until one second is over if it could be sent, or makes an error and does not wait |
| Requests.ReplyKeeps | msgbox/msgbox.c:1222-1242 | any reply, known or forged, keeps the bookkeeping |
| Requests.ReplyOutcome | msgbox/msgbox.c:1222-1242 | a reply gives a reply event with the context of the one get waiting under its id, exactly when there is one; else the error and no other change |
| Requests.ExpireFirstKeeps | msgbox/msgbox.c:1451-1477 | the first timeout always has its context (the assert holds), and expiring it keeps the bookkeeping |
| Requests.ExpireKeeps | msgbox/msgbox.c:1451-1477 | the timeout loop keeps the bookkeeping |
| Requests.DueIsPrefix | msgbox/msgbox.c:1453-1454 | in a sorted queue the due timeouts are a prefix, so the early break misses none |
| Requests.ExpiresExactlyTheDue | msgbox/msgbox.c:1451-1477 | with a sound queue the loop expires exactly the due timeouts, one error each with its context, in order, and keeps the rest in order |
| Requests.GetKeepsQueueIff | msgbox/msgbox.c:618-624 | a get keeps the queue sorted, distinct and with contexts if and only if its send does not queue a second timeout for one id |
| Requests.ReplyKeepsQueue | msgbox/msgbox.c:1222-1242 | any reply keeps the timeout queue sound |
| Requests.ExpireKeepsQueue | msgbox/msgbox.c:1451-1477 | the timeout loop keeps the timeout queue sound |
| Requests.RunKeepsQueue | msgbox/msgbox.c:1450-1571 | the queue is sound in every state of a run in which no second timeout is queued for one id, whatever contexts failed sends left |
| Requests.InTimeNeverClashes | msgbox/msgbox.c:1559 | a timeout resolved before 65,536 further gets on its status never meets its id again |
| Requests.QueueStaysSound | msgbox/msgbox.c:1450-1571 | in every run in which timeouts are resolved before 65,536 further gets on their status, the queue is sound in every state |
| Requests.StepKeeps | msgbox/msgbox.c:1450-1571 | every step keeps: contexts belong to their gets, each get answered at most once, none lost, timeouts sorted, distinct and with a context |
| Requests.RunKeeps | msgbox/msgbox.c:1450-1571 | the invariant in every state of a run in which no waiting id is given out |
| Requests.FewGetsAreFresh | msgbox/msgbox.c:1559 | the first 65,536 gets on a status take no waiting id; only the last of them takes id 0 |
| Requests.OneGetMore | msgbox/msgbox.c:1550-1571 | a run that shows the bound sharp: after 65,536 gets the next one forgets the first; if the sends failed, the timeout queue is still sound |
| Requests.RunKeepsIds | msgbox/msgbox.c:1559 | in every run, ids count the gets of their status from 1 and wrap |
| Requests.AnsweredAtMostOnce | msgbox/msgbox.c:1450-1571 | over any run with at most 65,536 gets per status: at most one reply or timeout per get, with its own id and context; pending exactly if unanswered |
| RequestTable.Table.MsgGet | msgbox/msgbox.c:1550-1571 | the in-place update of status, map and timeouts is the get step |
| RequestTable.Table.Connect | msgbox/msgbox.c:556-563 | a new status is the connect step: no contexts, next id 1 |
| RequestTable.Table.Store | msgbox/msgbox.c:1559-1560 | the id given out is next_reply_id, which moves on by one and wraps; its context is stored |
| RequestTable.Table.RemoveTimeout | msgbox/msgbox.c:627-634 | exactly the first timeout of the status and id is removed, if there is one |
| RequestTable.Table.OnReply | msgbox/msgbox.c:1222-1242 | the in-place handling of a reply is the reply step |
| RequestTable.Table.ExpireOne | msgbox/msgbox.c:1456-1475 | the body of the timeout loop is one expiry step |
| RequestTable.Table.ExpireTimeouts | msgbox/msgbox.c:1451-1477 | the loop that removes in place and backs up one is the expiry of all due timeouts |
| RequestTable.Run | msgbox/msgbox.c:1450-1571 | any orderly actions on the program state, at most 65,536 gets per status, are a run of the protocol with its invariant in every state |
| Drain.LandsIsFate | msgbox/msgbox.c:711-717 | where the swaps carry an unmarked item, or that they drop it, told from the recorded indices alone |
| Drain.DrainRemovesMarkedIff | msgbox/msgbox.c:1356-1357 | the drain removes exactly the marked items if and only if every unmarked item lands |
| Drain.InRangeIsOk | msgbox/msgbox.c:1356-1357 | r_j <= n - j for each j (counting from 1) is enough |
| Drain.DescendingIsOk | msgbox/msgbox.c:1356-1357 | any strictly descending list of indices drains right |
| Drain.AscendingIff | msgbox/msgbox.c:1446-1447 | ascending removals, as a polling pass records them, drain right if and only if each unmarked one of the last |rs| items moves below them |
| Drain.AscendingPair | msgbox/msgbox.c:1446-1447 | two ascending removals drain right if and only if the second is not the last slot, or the first is just before it |
| Drain.FirstAndLastOfThree | msgbox/msgbox.c:1446-1447 | an input that fails: of three conns the first and last end, and the drain drops the second and keeps the last |
| Drain.IndicesFit | msgbox/msgbox.c:1446-1447 | different recorded slots are never more than there are conns, so the drain cannot run the arrays empty too early |
| Lifecycle.QueueKeepsLife | msgbox/msgbox.c:918-936 | conn_status holds an address exactly while its last lifecycle event is a ready; queueing any event keeps that |
| Lifecycle.OpenSince | msgbox/msgbox.c:1001-1027 | an address is open exactly if some ready event has had no end after it |
| Lifecycle.ClientView | msgbox/msgbox.c:918-1027 | each message, request or reply follows a ready for its address with no end between; two readies have an end between them |
| RunLoop.Loop.SendCallback | msgbox/msgbox.c:750-759 | the call joins the end of the queue; recorded is whether it frees a conn with a timeout in the queue |
| RunLoop.Loop.LiveIsUnfreed | msgbox/msgbox.c:773-819 | in ordered runs no queued call frees a live conn |
| RunLoop.Loop.FreedCallsIff | msgbox/msgbox.c:1451-1489 | in ordered runs no call is made for a freed conn if and only if no get expired whose conn had been freed; never, if no conn is freed with a timeout of its own in the queue |
| RunLoop.Loop.RemoteAddressSeen | msgbox/msgbox.c:1001-1027 | the address gets a status, and a ready event exactly if it had none |
| RunLoop.Loop.LocalDisconnect | msgbox/msgbox.c:920-936 | the address leaves conn_status, the event is queued, and the conn is marked for removal unless it is a listening udp conn |
| RunLoop.Loop.AddConn | msgbox/msgbox.c:1266-1271 | conn and poll slot are appended together, the conn knowing its index |
| RunLoop.Loop.OpenSocket | msgbox/msgbox.c:1286-1342 | every outcome of opening: the conn stays in both arrays or leaves both, polled for writing exactly if its connect is in progress and for reading otherwise; the event queued is the one for that outcome |
| RunLoop.Loop.FinishOpen | msgbox/msgbox.c:1297-1341 | the failure and success paths after the conn was added: the arrays, the poll mode of the new slot, all other slots, statuses and events |
| RunLoop.OpenTells | msgbox/msgbox.c:1286-1342 | what the client hears of msg_listen and msg_connect: listening, ready, nothing yet, or one error that frees the conn, and which outcomes leave the conn open |
| RunLoop.Loop.SetPollMode | msgbox/msgbox.c:195-198 | the slot has the mode given; its socket, what was reported of it, and all other slots are unchanged |
| RunLoop.Loop.Poll | msgbox/msgbox.c:200-215 | poll reports a socket readable or writable only if its slot asks for that, and errors of all |
| RunLoop.Loop.PolledFor | msgbox/msgbox.c:195-215 | in every reachable state a pass finds a conn whose connect is in progress ready only for writing, and every other one only for reading |
| RunLoop.Loop.Accept | msgbox/msgbox.c:1093-1107 | an accepted conn is last in both arrays, polled for reading, and its address is ready |
| RunLoop.Loop.ReadListener | msgbox/msgbox.c:1069-1107 | accept, would-block and failure on a listening tcp conn |
| RunLoop.Loop.ReadMessage | msgbox/msgbox.c:1109-1245 | the events, status change and timeouts of one read on tcp and on udp, for every thing the socket may have |
| RunLoop.Loop.RemoveTimeout | msgbox/msgbox.c:627-634 | exactly the first timeout of the address and id is removed, if there is one |
| RunLoop.Loop.ReadAll | msgbox/msgbox.c:1440-1444 | the events and timeouts of reading until nothing more comes |
| RunLoop.Loop.HandleReady | msgbox/msgbox.c:1404-1445 | one round of the polling loop: its events, statuses, new conns, removals and poll modes, for every readiness and everything read |
| RunLoop.Loop.Serve | msgbox/msgbox.c:1432-1444 | ready event first, then what was read; a connect that is done is polled for reading from then on, all other slots are untouched |
| RunLoop.RoundTells | msgbox/msgbox.c:1404-1445 | a round case by case: refused, not readable, a listener that accepts or fails, or messages read; what it queues, and whether it marks the conn |
| RunLoop.Loop.PollPass | msgbox/msgbox.c:1403-1445 | one round for each conn there at poll time and none for those accepted meanwhile: all the events, statuses, accepted conns, marked slots and timeouts of the pass |
| RunLoop.MarksAre | msgbox/msgbox.c:1423-1424 | the slots marked in a pass are exactly those whose conn was refused or ended |
| RunLoop.MarksAscend | msgbox/msgbox.c:1403-1445 | a pass records its removals in ascending order |
| RunLoop.PassStable | msgbox/msgbox.c:1093-1106 | a conn accepted later in the pass does not change what the rounds before came to |
| RunLoop.ReadRunHandsOn | msgbox/msgbox.c:1440-1444 | reading hands on exactly the messages before the first result that is none, in order, each from its sender |
| RunLoop.ReadRunEnds | msgbox/msgbox.c:1440-1444 | reading ends a conn exactly when its last result is a loss or a close, and that event is the last |
| RunLoop.ReadRunTells | msgbox/msgbox.c:951-1229 | apart from data and ready events, reading tells of a lost connection exactly if it ends in a loss, of a closed one exactly if it ends in a close, of one error exactly if it ends in a failure or an unknown reply, and of nothing else; each with the address of the last message read |
| RunLoop.AnsweredIff | msgbox/msgbox.c:1222-1239 | while no two queued gets have one key, a read takes exactly the gets off the timeout queue that it reads the reply to |
| RunLoop.PassAnsweredIff | msgbox/msgbox.c:1222-1239 | so does a whole pass |
| RunLoop.PassTurn | msgbox/msgbox.c:1222-1239 | a get whose reply is not read stays queued, with nothing put in front of it, whatever the keys |
| RunLoop.DueInTurn | msgbox/msgbox.c:1452-1454 | a get with none in front that is due later expires at the first look that finds it due, and stays in the queue before |
| RunLoop.Loop.RemoveConnAt | msgbox/msgbox.c:908-916 | both arrays are filled from their last slot alike and the moved conn learns its index |
| RunLoop.Loop.RemoveAllMarked | msgbox/msgbox.c:1356-1357 | whatever the order of the removals, the arrays stay aligned and become the drained ones |
| RunLoop.Loop.DrainIsExact | msgbox/msgbox.c:1356-1357 | on the arrays of any reachable state the drain is exact if and only if the order of removals is one that OrderOk accepts |
| RunLoop.Loop.DrainRemovals | msgbox/msgbox.c:1446-1447 | after a drain conns is aligned with poll_fds and holds exactly the live conns if and only if the order was accepted; both arrays are the drained ones |
| RunLoop.Loop.Perform | msgbox/msgbox.c:1492-1571 | what every public call comes to, from a callback or between passes: events, statuses, timeouts, removals and arrays; a call on a conn that is gone changes nothing; the whole invariant is kept |
| RunLoop.Loop.MsgDisconnect | msgbox/msgbox.c:1526-1537 | the optional send error, then the closed event; the address leaves conn_status |
| RunLoop.Loop.MsgUnlisten | msgbox/msgbox.c:1503-1524 | error on a conn that is not listening or has a bad socket; otherwise the listening_ended event ends it, even on udp |
| RunLoop.Loop.MsgSend | msgbox/msgbox.c:1539-1548 | a failed send queues one error and nothing else |
| RunLoop.Loop.MsgGet | msgbox/msgbox.c:1550-1571 | an address without a status or a failed send queues one error; otherwise a timeout that names the conn joins the queue |
| RunLoop.Loop.ExpireTimeouts | msgbox/msgbox.c:1451-1477 | exactly the leading due timeouts go, one error each for timeout->conn, in order, whatever has become of that conn; recorded is whether one had been freed |
| RunLoop.Loop.ExpireOne | msgbox/msgbox.c:1456-1476 | the first timeout goes and its conn gets one error |
| RunLoop.Loop.ShowSender | msgbox/msgbox.c:779-785 | on udp, the callback of a message or a new address finds the address it came from in its conn |
| RunLoop.Loop.MakeCall | msgbox/msgbox.c:773-819 | one call is made: off the front of the saved ones, onto the delivered ones, whatever the callback does; its conn is freed only after it left the arrays, if the drains were in order |
| RunLoop.Loop.MakeCalls | msgbox/msgbox.c:1479-1489 | exactly the calls queued before are made, in order, each with its callback's calls; those that callbacks queue wait for the next pass, and only gets among them add timeouts |
| RunLoop.Loop.PollAndExpire | msgbox/msgbox.c:1388-1477 | the events of the polling come before the errors of the gets that expire; the conns marked have left the arrays by then |
| RunLoop.Loop.RunOnce | msgbox/msgbox.c:1348-1490 | one pass keeps the invariant and makes exactly these calls, in order: those queued before, the events of its rounds after the first drain, and one error for each leading due timeout of the queue that the reads leave; every timeout behind the first that is not due stays queued |
| RunLoop.FollowGet | msgbox/msgbox.c:1450-1490 | over any run, a get with none in front that is due later stays queued until a pass reads its reply or finds it due; if the first pass at or after its due time comes without the reply, that pass makes the call with its error |
| RunLoop.LastInTurn | msgbox/msgbox.c:618-624 | a new get joins the queue behind the others, so none in front is due later while the clock does not go back |
| RunLoop.Run | msgbox/msgbox.c:1348-1571 | any interleaving of public calls and passes keeps: alignment, poll modes, distinct conns, conn_status = open addresses, event order, calls made + calls queued = calls ever queued, and the exact account of calls for freed conns; the calls made are those of its passes |
| RunLoop.RefusedAfterGet | msgbox/msgbox.c:1423-1476 | an input with every drain in order that calls for a freed conn: a get on a connected udp conn, a refusal, and the expiry |
| RunLoop.UnlistenedAfterGet | msgbox/msgbox.c:920-1476 | another: a get on a udp listener, a message from elsewhere, msg_unlisten, and the expiry |
| RunLoop.ReadyOnConnectIff | readme.md:130 | the first event of a successful connect is msg_connection_ready if and only if the address has no status yet |
| RunLoop.ConnectAgain | msgbox/msgbox.c:1423-1426 | an input that breaks that promise: a refused udp connect leaves its status, and the next connect to the address gets no ready event |
| Callbacks.MsgConn.Pass | msgbox/msgbox.c:1222-1244 | what every callback of a pass sees in conn->reply_id and conn->reply_context: the id of a header left over at the end, or of the last request, or 0 after any other message, or the old id; on tcp the context of the last expiry or message; for calls queued before, ready events, messages, continued ones too, the end of the reading, and expired gets |
| Callbacks.FinalIdIs | msgbox/msgbox.c:971-976 | the id that a pass leaves is told by the header left over, or else by the last message that is not the rest of a request |
| Callbacks.SplitRequest | msgbox/msgbox.c:971-1123 | a request whose header is read in one pass and whose payload comes in the next is seen by its callback with its own id |
| Callbacks.ArrivalDuesAt | msgbox/msgbox.c:1167-1244 | each message has its call, with its kind, id and context, right after the ready event of a new address and before the calls of later messages |
| Callbacks.RepliesRightIff | readme.md:196-202 | the documented reply_context is seen by reply callbacks on udp always, on tcp exactly when every reply of the pass has the context that the conn ends with |
| Callbacks.ExpiriesRightIff | msgbox/msgbox.c:1462-1474 | timeout callbacks see the context of their get on udp always, on tcp exactly when all gets expired in the pass have one context |
| Callbacks.DistinctContextsRightIff | readme.md:196-202 | with different contexts, replies are right on tcp exactly when only the last message of the pass is a reply, and then no get expires |
| Callbacks.IdsRightIff | readme.md:230-236 | the documented reply_id, 0 before every event but a request, is seen exactly when the pass ends with id 0 and no request has another, or all its calls are requests with the one id it ends with |
| Callbacks.StaleIds | msgbox/msgbox.c:976 | inputs that break the reply_id promise: a request with an expiry, with a new udp address, with a close behind it, with another request, left over from the pass before, or continued on a conn that did not read its header |
| Callbacks.StaleContexts | msgbox/msgbox.c:1235-1236 | inputs that break the reply_context promise: two replies in a tcp pass, or a reply and an expiry |
| Callbacks.UdpListener.Receive | msgbox/msgbox.c:1205-1219 | the sender becomes the remote address; a new address captures the conn_context of the moment |
| Callbacks.UdpListener.CreateStatus | msgbox/msgbox.c:1005-1014 | a new status holds the context captured, apart from all others |
| Callbacks.UdpListener.PerformAll | msgbox/msgbox.c:806 | what a callback does to the statuses, and that its own survived exactly if it was not dropped |
| Callbacks.UdpListener.MakeCall | msgbox/msgbox.c:773-815 | a callback for a live address sees the context that the last callback for it left, or the one captured when its status was made, for any interleaving |
| Callbacks.UdpListener.SaveContext | msgbox/msgbox.c:809-815 | the context is saved for the address of the call, even if the callback changed the remote address, and for no other |
| Callbacks.ExpectedIs | msgbox/msgbox.c:773-815 | the context expected for an address is that of the last happening that made or dropped its status or saved a context in it |
| Callbacks.Run | msgbox/msgbox.c:773-1219 | any interleaving of messages, calls and drops for any addresses: each call for a live address sees the context last left or captured for it |
| AddressText.DecimalRoundTrip | msgbox/msgbox.c:515-516 | printing a number in decimal and reading it back gives the number |
| AddressText.IpRoundTrip | msgbox/msgbox.c:510-518 | dotted decimal of every ip is 7 to 15 characters and parses back to the ip |
| AddressText.FitsBuffer | msgbox/msgbox.c:513-516 | every address with its terminator fits the 32-byte buffer |
| AddressText.StrToLOfDecimal | msgbox/msgbox.c:887 | strtol reads a printed number whole |
| AddressText.StrToLOfSigned | msgbox/msgbox.c:887 | strtol reads a sign |
| AddressText.StrToLOfSpace | msgbox/msgbox.c:887 | strtol skips white space in front, and consumes nothing without a digit |
| AddressText.Conn.ParseAddressStr | msgbox/msgbox.c:824-894 | succeeds exactly on address strings, with their fields; each error comes exactly in its case and leaves later fields alone |
| AddressText.AnyAddress | msgbox/msgbox.c:868-870 | "tcp://*:port" and "udp://*:port" are the any address with that port and protocol |
| AddressText.Printed | msgbox/msgbox.c:510-518 | an address prints as its protocol's prefix, dotted decimal, a colon and the port, as udp://1.2.3.4:80 |
| AddressText.AddressRoundTrip | msgbox/msgbox.c:824-894 | parsing what address_as_str prints restores ip and port always, and the protocol if and only if it is tcp or udp |

## Left out

- The sockets API, poll and select, fcntl, getsockopt, errno texts and the Windows variants: their results are
  inputs of the model.
- TcpStream.TcpConn.ContinueRecv: after a recv that fails within a message the source reads on, no longer
  aligned with the frames; the model reads no more from that conn, also in TcpShared.
- TcpStream.TcpConn.ReadHeader: the recv that takes a header it has just peeked at always succeeds, as in the
  source, which does not look at its result.
- TCP messages of the types heartbeat and unknown (the source asserts or leaves the event unset): the run loop
  takes only messages, requests, replies and close.
- UDP close on a listening conn beyond its event: the datagram is only peeked at and the sender is not known.
- The metadata of error callbacks on UDP conns, which the source does not initialise, and the address on a
  timeout error, which it reads from a queue slot that has moved.
- Disconnecting twice, using a conn after its end, and disconnecting a status with gets pending (an assert of
  the source): the user's calls name live conns only.
- RunLoop.Loop.MsgSend: what is sent; here only its errors matter, and the choice between reply and one-way is
  the id that Callbacks tells of.
- Nested calls of msg_runloop from a callback.
- The clock is in whole microseconds; floating-point time is not modelled.
- RunLoop.FollowGet: is about gets with none in front that is due later, which is every get while the clock does not
  go back (RunLoop.LastInTurn); after that a get may be held up by an older one.
- Overflow of sizes and counts in `cstructs/array.c`: numbers of items and bytes are unbounded.
- malloc, realloc and free: memory never runs out; freed list nodes and pairs are just no longer reachable, and a
  custom pair_alloc is not modelled.
- ByteArray.Array.InsertItems: requires that the new items lie outside the array, because the source reads them
  after a reallocation that may have freed them.
- The capacity-0 state after array__release: nothing may be added then but through the branch that sets it to 1.
- HashMap.Map.GrowBuckets: the bucket cells are an array of entries here; that they live in a byte array which
  is reallocated, and that links into the old one then dangle, is not modelled (map__set takes none across it).
- RequestTable.Run: the statuses and contexts are apart from the conns of RunLoop, where ids and due times are
  given; replies come only on addresses that have a status.
- RunLoop.Loop.RemoveTimeout: a timeout's status is named by its address. Two statuses of one address differ only
  after a status with gets pending was dropped, where the source has an assert.
- RunLoop.Loop.React: takes an answered timeout off the queue after it queued the event; the source does it before,
  with nothing in between that could tell.
- RunLoop.Loop.LocalDisconnect: marks the conn before it queues the event; the source does it in the other order,
  with nothing in between that could tell.
- msg_Conn and ConnStatus are modelled in slices, one per module: slot and address, receive buffers, reply fields,
  conn_context, reply contexts, and the parsed address.
- TcpShared.Remote.Connect: all conns have one remote address, and it is theirs from the start.
- AddressText.Conn.ParseAddressStr: inet_pton is taken as four dotted parts of one to three digits up to 255
  without leading zeros, which C libraries refuse and section 6.3 of RFC 3493 leaves open.
- array__sort and array__find (wrappers of qsort and bsearch), list__reverse, list__move_first, list__count,
  memprofile, dbgcheck, verbosity output and the examples: plumbing, or only easy members.
