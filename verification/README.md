# A verified model of the RTMP server and its building blocks

The repository is an RTMP live-streaming server in Go (`pkg/rtmp`, `pkg/av`) with
a few supporting components (`internal/`). This project models the parts that hold
protocol state or non-obvious arithmetic, and proves what they promise over every
input, every run or every schedule.

| component | modules | main results |
|---|---|---|
| byte codecs | `Bytes` | the integer codecs are mutually inverse; the in-place writers and the wrapping reader compute them |
| chunk codec | `ChunkFormat`, `ChunkWire`, `ChunkSafety`, `ChunkDemux`, `ChunkRoundTrip`, `ChunkDelta`, `ChunkStart`, `ChunkAck`, `ChunkConn` | demultiplexing of any interleaving, round trips with their exact condition, messages begun by any chunk format, what the peer learns from acknowledgements, conservation of acknowledged bytes, safety on arbitrary input, bodies that were handed out are never overwritten |
| smooth weighted round robin | `WeightedRoundRobin` | exact fairness in every window, bounds of every reachable state |
| LRU cache | `LruList`, `LruCache` | a smaller cache's hits are a larger one's hits, conservation of inserted keys, when a Get hits and with what, what is dropped and when, the list is in order of last use |
| consistent hash ring | `HashRing`, `ConsistentHash` | minimal disruption, when Delete undoes Add, order independence, any run leaves the ring of the live nodes, what ranging over a slice while shortening it really deletes and what becomes of Get after it |
| subscriber queue | `AvPackets`, `SubscriberQueue`, `QueueSchedule` | the drop loop as a function, the capacity bound and no loss of key packets under every schedule, exactly when the loop waits for ever |
| stream dispatch | `StreamDispatch`, `DispatchSchedule` | exactly what a late joiner is handed, under every schedule of the dispatcher and all subscribers; when a dispatch ends and when it holds everyone up |
| handshake | `Handshake` | the self-locating digest is found again, when the server answers or refuses, server and client verify each other |

Each component has a layer of functions on values (`ChunkFormat`, `LruList`,
`HashRing`, ...) about which the theorems are stated, and, where the Go code updates
objects, slices or buffers in place, a class or method with loops that is proved to
compute exactly those functions (`ChunkConn.Conn`, `LruCache.Cache`,
`ConsistentHash.ConsistentHashLoadBalance`, ...). The 32-bit arithmetic of the modelled parts
of pkg/rtmp has its wrap-around.

## What the proofs say about the code

Where a promise does not hold on all inputs, the code is modelled as it is and the
exact condition is proved.

- A Set Chunk Size or Window Acknowledgement Size message with fewer than four bytes
  makes the reader index past its body. `ChunkDemux.FaultsExactly` shows that this is
  the only thing a well-formed sender can do to make reading fail, and
  `ChunkDemux.ShortSetChunkSizeFaults` gives such an input.
- Sections 5.3.1.2 and 5.3.1.3 of Adobe's RTMP 1.0 specification make the field of a
  fmt-0 header a timestamp and that of a fmt-1 or fmt-2 header a delta. The code decides
  by the format that created the table entry, and never reads an extended field there.
  `ChunkDelta.StampExactly` says when the two agree, and `ChunkStart.DeltaTakenAsStamp`
  gives the inputs on which a new connection loses the sum.
- Section 5.3.1.2.4 has a fmt-3 chunk that starts a message add the last delta again,
  which after a fmt-0 chunk is that chunk's timestamp. The code adds it only on entries
  that fmt 1 or 2 made, and leaves the timestamp alone after fmt 0
  (`ChunkStart.FreshRepeats`).
- `bytesRecvReset` counts only the times the byte counter stands at exactly 2^32 - 1;
  when the counter passes 2^32 it wraps unnoticed (`ChunkAck.ReceivedAccounts`).
- The writer never emits an extended timestamp with a fmt-0 chunk, so timestamps from
  0xffffff on do not survive. `ChunkRoundTrip.RoundTripExactly` gives the exact set of
  messages that do.
- The 32-bit acknowledgement counter loses 2^32 bytes when it wraps.
  `ChunkAck.AckConserved` shows that every run conserves the account if and only if no
  window above 2^32 - 2^24 + 1 can be announced; `ChunkAck.ToldWraps` is the run that
  loses it with any larger one.
- `ConsistentHashLoadBalance.Delete` shortens a slice while ranging over it. On a ring
  with several copies of a key one pass removes half of them, or panics if that key is
  the greatest (`HashRing.OnePass`). It takes no collision to get there: adding a node
  twice and deleting it panics (`HashRing.AddedTwicePanics`), and adding it three times
  next to another leaves a size greater than the ring, on which `Get` panics
  (`HashRing.AddedThriceMisses`). `HashRing.DeleteUndoesAddExactly` and
  `HashRing.SizeAfterDelete` say of any node and any hash when Delete undoes Add, and
  when the size comes out right.
- A packet that finds a subscriber's queue full starts the drop loop and is itself not
  queued (`SubscriberQueue.Written`). `StreamDispatch.LateJoiner` and
  `DispatchSchedule.LateJoinerUnderAnySchedule` show that a subscriber gets everything
  it is due if and only if this never happened to it.
- The drop loop receives from the queue that it thins out. When the subscriber itself
  takes 62 packets or more while the loop runs, the loop can find the queue empty, and
  then waits for ever with the stream's lock held: nobody gets another packet, joins or
  leaves (`QueueSchedule.WaitsExactly`, `DispatchSchedule.CanGetStuck`,
  `DispatchSchedule.StuckForEver`). With 61 or fewer it never does
  (`DispatchSchedule.StuckAfter62`), and then every dispatch ends
  (`DispatchSchedule.DispatchEnds`). It takes a queue of size 85 or more
  (`DispatchSchedule.SticksExactly`); the server makes them of size 1024.
- The drop loop moves what it keeps behind newer packets. `SubscriberQueue.OrderKeptExactly`
  shows that it leaves the queue in order if and only if it comes to nothing that it keeps.
- The first packet dispatched to a subscriber is sent to it twice if and only if it is a
  header (`StreamDispatch.FirstHeaderTwice`).

## Model

| member | source | states |
|---|---|---|
| Bytes.BERoundTrip | pkg/rtmp/chunk_stream.go:478-504 | decoding an n-byte big-endian encoding gives the value back modulo 256^n |
| Bytes.LERoundTrip | pkg/rtmp/chunk_stream.go:478-504 | the same for little endian |
| Bytes.BEInverse | pkg/rtmp/chunk_stream.go:478-504 | encoding what was decoded gives the same bytes: with the round trip, a bijection |
| Bytes.LEInverse | pkg/rtmp/chunk_stream.go:478-504 | the same for little endian |
| Bytes.Digit | pkg/rtmp/chunk_stream.go:478-489 | which byte of the value stands at which index, in both orders |
| Bytes.UintAsByteSlice | pkg/rtmp/chunk_stream.go:478-489 | the loop writes the encoding in place and touches nothing else |
| Bytes.ByteSliceAsUint | pkg/rtmp/chunk_stream.go:491-504 | the loop computes the decoding, wrapped to 32 bits for longer slices |
| ChunkFormat.ParseBasicHeader | pkg/rtmp/chunk_stream.go:142-169 | on any bytes: a format below 4, a chunk stream id in 2..65599, and at least one byte consumed |
| ChunkFormat.ParseMessageHeader | pkg/rtmp/chunk_stream.go:171-265 | on any entry and bytes the body index, remainder and buffer stay consistent, so that no slice is out of bounds |
| ChunkFormat.ParseBody | pkg/rtmp/chunk_stream.go:267-286 | the same for the body, and the body is full exactly when nothing remains |
| ChunkFormat.ReadChunk | pkg/rtmp/chunk_stream.go:114-140 | every turn of the loop on any input consumes a byte and keeps every entry of the table consistent |
| ChunkFormat.ReadMessage | pkg/rtmp/chunk_stream.go:114-140 | a returned message leaves a consistent table and strictly less input, so reading terminates |
| ChunkSafety.ReadShape | pkg/rtmp/chunk_stream.go:114-140 | whatever the input, a returned message has an id in 2..65599, a type below 256 and a body of at most 0xffffff bytes; a panic comes only from a short control message |
| ChunkSafety.ReadAllShape | pkg/rtmp/chunk_stream.go:114-140 | the same for a whole input: reading ends only in a cut chunk or a short control message |
| ChunkDelta.StampExactly | pkg/rtmp/chunk_stream.go:198-209 | on any input that holds a fmt-0, 1 or 2 header, extended or not: stamp and bytes consumed are those of sections 5.3.1.2 and 5.3.1.3 of the RTMP 1.0 specification if and only if the field is not extended and the entry was made by the same kind of format, or the difference happens not to show |
| ChunkDelta.RestartTakesAnyStamp | pkg/rtmp/chunk_stream.go:228-248 | after a header field of 0xffffff a fmt-3 chunk that starts a message reads four bytes: any 32-bit timestamp on an entry made by fmt 0, and what is added on one made by fmt 1 or 2 |
| ChunkDelta.RestartCutShort | pkg/rtmp/chunk_stream.go:228-248 | where fewer than four bytes are left these are lost and count as 0 |
| ChunkDelta.RepeatedStampSkipped | pkg/rtmp/chunk_stream.go:249-261 | inside such a message four bytes are skipped if and only if they are the timestamp so far, and otherwise belong to the body |
| ChunkStart.HeaderBegins | pkg/rtmp/chunk_stream.go:171-248 | on an entry made by any format, a header of any format begins a message with its own fields and those it leaves out from the message before, and with the timestamp that the two formats decide: the field, the sum, or the one before |
| ChunkStart.AnyFormatBegins | pkg/rtmp/chunk_stream.go:114-286 | on any reader, amid whatever is under way on other ids, such a message comes out whole, over any number of chunks |
| ChunkStart.RepeatsArrive | pkg/rtmp/chunk_stream.go:228-248 | any number of messages that repeat a header by fmt 3 come out with its type, stream and length, each later by the last field where fmt 1 or 2 made the entry, and all with the same timestamp where fmt 0 did |
| ChunkStart.FreshRepeats | pkg/rtmp/chunk_stream.go:114-286 | the same from a new connection, begun by fmt 0 or by fmt 1, to the last byte |
| ChunkStart.DeltaTakenAsStamp | pkg/rtmp/chunk_stream.go:114-140 | from a new connection, a message begun by fmt 0 and then one by fmt 1 on the same id and stream, of any lengths on which the two sides' chunk sizes agree: both are returned, the second stamped with its delta, which is the sum only if the first was stamped 0 |
| ChunkWire.BasicHeaderBytes | pkg/rtmp/chunk_stream.go:371-401 | the one, two or three bytes of a basic header for each range of ids, low byte first in the three-byte form, and none beyond 65599 |
| ChunkWire.MessageHeaderBytes | pkg/rtmp/chunk_stream.go:403-448 | the eleven bytes of a fmt-0 header one by one, of which fmt 1 and 2 have seven and three, with a timestamp that does not fit as 0xffffff |
| ChunkWire.Fmt3HeaderBytes | pkg/rtmp/chunk_stream.go:407-445 | a fmt-3 chunk has four bytes of timestamp if and only if it exceeds 0xffffff |
| ChunkWire.NothingOrCut | pkg/rtmp/chunk_stream.go:297-302 | nothing is written of an empty message, and a basic header and a timestamp of one that is too long, before the error |
| ChunkWire.RemapIs | pkg/rtmp/chunk_stream.go:290-295 | the writer sends type 8 on chunk stream 4, types 9, 15 and 18 on 6, and the rest on the message's own |
| ChunkWire.ControlTakes | pkg/rtmp/chunk_stream.go:339-348 | type 1 sets the chunk size read by and type 5 the window, each to the first four bytes with the most significant first, and no other type sets either |
| ChunkDemux.BasicHeaderParses | pkg/rtmp/chunk_stream.go:142-169 | a written basic header parses back to its format and id, and to nothing more |
| ChunkDemux.StartParses | pkg/rtmp/chunk_stream.go:171-227 | a written fmt-0 header parses back to all four fields of the message, with an empty body buffer of its length |
| ChunkDemux.BodyParses | pkg/rtmp/chunk_stream.go:267-286 | one chunk extends the assembled prefix of the body by exactly its bytes |
| ChunkDemux.TurnMatches | pkg/rtmp/chunk_stream.go:114-140 | any step of any sender is one turn of the reader, touching the entry of its own id only |
| ChunkDemux.StepMatches | pkg/rtmp/chunk_stream.go:114-140 | a step of the sender, seen from everything the reader will ever do with the bytes after it |
| ChunkDemux.Demultiplexes | pkg/rtmp/chunk_stream.go:114-286 | any interleaving of the chunks of any well-formed messages, with chunk sizes that change on the way: the reader returns exactly the completed messages in order of completion and is in step with the sender at the end |
| ChunkDemux.FreshDemultiplexes | pkg/rtmp/chunk_stream.go:114-286 | the same from a new connection, consuming every byte |
| ChunkDemux.FaultsExactly | pkg/rtmp/chunk_stream.go:339-351 | the reader panics if and only if the step completes a control message shorter than its value |
| ChunkDemux.ShortSetChunkSizeFaults | pkg/rtmp/chunk_stream.go:339-351 | a one-byte Set Chunk Size does it |
| ChunkRoundTrip.RoundTripExactly | pkg/rtmp/chunk_stream.go:289-337 | one message is read back with all its fields, on chunk stream 4 for type 8, 6 for types 9, 15 and 18, and else its own, if and only if its body has 1..0xffffff bytes, its timestamp is below 0xffffff, its type fits a byte, its own id, where used, is in 2..65599, and it is no short control message |
| ChunkRoundTrip.MessageMatches | pkg/rtmp/chunk_stream.go:289-337 | the same for one message in the middle of any traffic on other ids |
| ChunkRoundTrip.StampOfMessage | pkg/rtmp/chunk_stream.go:198-241 | the first message on an id that fmt 0 begins, or one under way on such an id with a timestamp below 0xffffff so far, comes out with a timestamp below 0xffffff, whatever the bytes |
| ChunkRoundTrip.SequenceRoundTrip | pkg/rtmp/chunk_stream.go:289-351 | any list of such messages is read back whole and in order, on the same chunk streams, also when a Set Chunk Size in it changes the reader's size, as long as each body fits both sizes or they are equal at its turn |
| ChunkRoundTrip.ConnectResponseDelivered | pkg/rtmp/conn.go:426-469 | a peer whose chunk size is 5 or more reads the window by type 5, bandwidth 2500000 with limit type 2 by type 6, the chunk size by type 1, and the result, in this order |
| ChunkAck.OneMessage | pkg/rtmp/chunk_stream.go:339-369 | one delivery keeps the account, up to a wrap of the counter, and leaves the counter 0 or below the window; what it acknowledges, if anything, is the window or more |
| ChunkAck.AckAccounts | pkg/rtmp/chunk_stream.go:353-369 | over any run, acknowledged plus counted bytes are the received ones, short of 2^32 for each wrap; the counter is 0 or below the window in force, also when windows change |
| ChunkAck.AckConserved | pkg/rtmp/chunk_stream.go:339-369 | whatever window a connection starts with, if it is never told one above a bound that includes it, every run conserves the account if and only if the bound is at most 2^32 - 2^24 + 1 |
| ChunkAck.SafeWindowsNeverWrap | pkg/rtmp/chunk_stream.go:353-369 | with such windows the counter never wraps, from any state it can be in between messages |
| ChunkAck.FillWraps | pkg/rtmp/chunk_stream.go:353-369 | with any larger window, audio up to one byte below the window and then one message of 0xffffff bytes make the counter wrap |
| ChunkAck.ToldWraps | pkg/rtmp/chunk_stream.go:339-369 | so does announcing such a window first, whatever the connection started with |
| ChunkAck.ReadAllAccounts | pkg/rtmp/chunk_stream.go:339-369 | the accounts of a reader after any input are those of delivering the messages it returned |
| ChunkAck.AcksReadBack | pkg/rtmp/chunk_stream.go:360-367 | a peer with chunks of 4 bytes or more reads one message of type 3 on chunk stream 2 for each acknowledgement, with exactly its value |
| ChunkAck.PeerSeesReceived | pkg/rtmp/chunk_stream.go:339-369 | on any input, the values that peer reads and what is still counted make up the bytes of the messages received, short of 2^32 for each wrap |
| ChunkAck.ReceivedAccounts | pkg/rtmp/chunk_stream.go:353-358 | over any run the byte counter and the reset counter account for the bytes received, short of 2^32 for each time the byte counter passed that unnoticed |
| ChunkConn.Conn.ReadChunkBasicHeader | pkg/rtmp/chunk_stream.go:142-169 | reads from the connection what `ParseBasicHeader` takes from the input |
| ChunkConn.Conn.StartMessage | pkg/rtmp/chunk_stream.go:198-227 | updates the chunk stream's fields as `StartEntry` does, and gives it a fresh buffer |
| ChunkConn.Conn.RepeatMessage | pkg/rtmp/chunk_stream.go:228-248 | the same for a fmt-3 chunk that starts a message |
| ChunkConn.Conn.ReadChunkMessageHeader | pkg/rtmp/chunk_stream.go:171-265 | updates one chunk stream as `ParseMessageHeader` does; its buffer is fresh or still being filled |
| ChunkConn.Conn.ReadChunkMessageBody | pkg/rtmp/chunk_stream.go:267-286 | fills the buffer in place as `ParseBody` does |
| ChunkConn.Conn.ReadTurn | pkg/rtmp/chunk_stream.go:115-138 | one turn changes the table of objects as `ReadChunk` changes the table of values |
| ChunkConn.Conn.OnReadChunkStreamSucc | pkg/rtmp/chunk_stream.go:339-351 | takes over a new chunk size or window, then acknowledges; panics on a short control message |
| ChunkConn.Conn.SendAck | pkg/rtmp/chunk_stream.go:353-369 | all counters, and on the wire one acknowledgement with the value logged, if one is due |
| ChunkConn.Conn.ReadChunkStream | pkg/rtmp/chunk_stream.go:114-140 | returns the message `ReadMessage` gives, with the state and output it leaves; the body handed out belongs to no chunk stream that is still being filled |
| ChunkConn.Conn.PublishingCycle | pkg/rtmp/publisher.go:31-65 | at the end of any input every packet made from a message still holds that message's bytes: no later read on any id has written to a body that was handed out; and what went out meanwhile is the acknowledgements logged, in order |
| ChunkConn.MediaSnoc | pkg/rtmp/publisher.go:44-53 | packets are made from the messages of types 8, 9, 15 and 18, in order, and from no others |
| ChunkConn.Conn.WriteChunkBasicHeader | pkg/rtmp/chunk_stream.go:371-401 | appends the 1, 2 or 3-byte form of the header |
| ChunkConn.Conn.WriteChunkMessageHeader | pkg/rtmp/chunk_stream.go:403-448 | appends the fields of the format, with the clamped timestamp, or fails on a body that is too long |
| ChunkConn.Conn.SplitByChunkSize | pkg/rtmp/chunk_stream.go:297-330 | the loop emits one fmt-0 chunk and then fmt-3 chunks covering the body |
| ChunkConn.Conn.WriteChunkStream | pkg/rtmp/chunk_stream.go:289-337 | the bytes of `WriteMessage`, and the chunk stream id the writer chooses |
| WeightedRoundRobin.WeightRoundRobinBalance.Add | internal/balance/weightroundrobin/weightroundrobin.go:19-33 | appends a fresh node with current weight 0, or fails and changes nothing |
| WeightedRoundRobin.WeightRoundRobinBalance.Get | internal/balance/weightroundrobin/weightroundrobin.go:36-56 | picks the first highest raised weight and moves all current weights as `Next` says |
| WeightedRoundRobin.PickIsFirst | internal/balance/weightroundrobin/weightroundrobin.go:40-48 | the node picked is the first of those with the greatest raised weight |
| WeightedRoundRobin.ReachableBalanced | internal/balance/weightroundrobin/weightroundrobin.go:19-56 | over any interleaving of Adds and Gets with weights of at least 0, current weights sum to 0 and none falls to minus the total |
| WeightedRoundRobin.BalancedBounds | internal/balance/weightroundrobin/weightroundrobin.go:40-48 | then each lies in [-(W-1), (n-1)(W-1)], and no sum in the loop exceeds n*W |
| WeightedRoundRobin.Accounting | internal/balance/weightroundrobin/weightroundrobin.go:36-56 | the state after t Gets is determined by how often each node was picked |
| WeightedRoundRobin.NeverAhead | internal/balance/weightroundrobin/weightroundrobin.go:36-56 | at any moment no node is a full pick ahead of its share |
| WeightedRoundRobin.NeverFarBehind | internal/balance/weightroundrobin/weightroundrobin.go:36-56 | nor n - 1 full picks behind it, for n nodes |
| WeightedRoundRobin.ExactFairness | internal/balance/weightroundrobin/weightroundrobin.go:36-56 | every window of W Gets picks each node exactly as often as its weight, and the state has period W |
| WeightedRoundRobin.ReducedFairness | internal/balance/weightroundrobin/weightroundrobin.go:36-56 | weights with a common factor k are served exactly in windows k times shorter |
| LruCache.Cache.Add | internal/lru/lru.go:28-47 | the recency list and the calls to OnEvicted are those of one `Step` |
| LruCache.Cache.Get | internal/lru/lru.go:49-60 | the value found, and the list with that entry in front |
| LruCache.Cache.Remove | internal/lru/lru.go:62-70 | the list without the key, reported if it was there |
| LruCache.Cache.RemoveOldest | internal/lru/lru.go:92-101 | drops the last entry and reports it |
| LruCache.Cache.Clear | internal/lru/lru.go:80-90 | empties the cache and reports every entry once, in some order |
| LruList.Conservation | internal/lru/lru.go:28-112 | over any run no key is held twice, the capacity is respected, and the keys inserted are the keys held plus the keys dropped, as multisets |
| LruList.RunIncluded | internal/lru/lru.go:28-112 | over any run the smaller cache's list is a subsequence of the larger one's and the gap in size stays within the gap in capacity |
| LruList.Inclusion | internal/lru/lru.go:28-112 | every hit of a smaller cache is a hit of a larger or unbounded one with the same value |
| LruList.UnboundedIsMap | internal/lru/lru.go:28-70 | without RemoveOldest an unbounded cache is a plain map |
| LruList.HitsAreRight | internal/lru/lru.go:28-112 | after any operations, a hit of a cache of any capacity is what a plain map would hold |
| LruList.GetHitsExactly | internal/lru/lru.go:49-60 | at any capacity, after any operations, a Get finds its key if and only if the cache holds it, and with the value held |
| LruList.UnboundedHitsExactly | internal/lru/lru.go:49-60 | without RemoveOldest an unbounded cache answers every Get as a map does, hit or miss |
| LruList.AddDropsExactly | internal/lru/lru.go:28-47 | an Add replaces the entry of its key, and drops the last entry if and only if the key is new and there are then more than the capacity |
| LruList.RemoveTakesExactly | internal/lru/lru.go:62-70 | a Remove takes out and reports the entry of its key and nothing else |
| LruList.OldestTakesExactly | internal/lru/lru.go:92-101 | RemoveOldest takes out the entry used longest ago whenever there is one |
| LruList.ByLastUse | internal/lru/lru.go:28-112 | after any operations, at any capacity, the list holds its keys by strictly falling index of their last Add or Get |
| LruList.OldestIsDropped | internal/lru/lru.go:44-46 | so what an Add or RemoveOldest drops was used before everything that it leaves |
| ConsistentHash.ConsistentHashLoadBalance.Add | internal/balance/consitenthash/consitenthash.go:34-59 | ring, size and both maps become those of `AddNode`, or an error changes nothing |
| ConsistentHash.ConsistentHashLoadBalance.RangeOverRing | internal/balance/consitenthash/consitenthash.go:72-76 | the loop that shifts the cells it ranges over computes `RangeDelete`, including its panic |
| ConsistentHash.ConsistentHashLoadBalance.Delete | internal/balance/consitenthash/consitenthash.go:61-83 | ring, size and both maps become those of `DeleteNode`, or it panics exactly there, or fails on an unknown node |
| ConsistentHash.ConsistentHashLoadBalance.Get | internal/balance/consitenthash/consitenthash.go:85-98 | on any ring, in order or not, the node that halving the range by size comes to, or a panic where it indexes past the ring |
| HashRing.GetFinds | internal/balance/consitenthash/consitenthash.go:85-98 | on a ring in order whose size is its length that is the node of the first key at or after the hash, else of the smallest; it panics only on an empty ring |
| HashRing.OnePass | internal/balance/consitenthash/consitenthash.go:72-76 | one pass over a sorted ring with c copies of the key leaves c/2 of them, or panics if c is at least 2 and the key is the greatest |
| HashRing.PassCleansExactly | internal/balance/consitenthash/consitenthash.go:72-76 | a pass removes the key if and only if it was there at most once |
| HashRing.BuildOk | internal/balance/consitenthash/consitenthash.go:34-59 | after any Adds, colliding or not, the ring is sorted, the size is its length and the map has exactly its keys |
| HashRing.HitKeyIsHit | internal/balance/consitenthash/consitenthash.go:87-92 | the key found is the smallest at or after the hash, else the minimum of the ring |
| HashRing.AddMovesOnlyToNode | internal/balance/consitenthash/consitenthash.go:34-98 | after Add a lookup goes to the new node or where it went before, even with collisions |
| HashRing.DeleteLeaves | internal/balance/consitenthash/consitenthash.go:61-83 | what Delete leaves of any ring in order, with keys however often repeated: half the copies for each pass, and a panic if and only if some pass comes to a key with two copies left and nothing greater |
| HashRing.DeleteKeeps | internal/balance/consitenthash/consitenthash.go:61-83 | Delete of keys that occur once takes exactly those off the ring and the maps, and keeps the ring in order |
| HashRing.DeleteMovesOnlyItsOwn | internal/balance/consitenthash/consitenthash.go:61-98 | after Delete of a node that owns its keys, however often they are on the ring, a lookup that did not go to the node is unchanged, and so is what Get returns if the size is the ring's length |
| HashRing.SizeAfterDelete | internal/balance/consitenthash/consitenthash.go:77-78 | after Delete of a node whose keys are on the ring, the size is the ring's length or more, and its length if and only if each key was there as often as the node has it, or twice where the node has it once |
| HashRing.BuildHolds | internal/balance/consitenthash/consitenthash.go:45-53 | after any Adds the keys of each known node are on the ring at least as often as it has them |
| HashRing.OversizedGetPanics | internal/balance/consitenthash/consitenthash.go:87-92 | where the size exceeds the ring, Get panics for every hash greater than its keys |
| HashRing.AddedTwicePanics | internal/balance/consitenthash/consitenthash.go:61-83 | with any hash, adding any node twice to an empty ring and deleting it panics |
| HashRing.AddedThriceMisses | internal/balance/consitenthash/consitenthash.go:61-98 | a node added three times next to one with a greater key: Delete of the first leaves two keys and a size of 3, and Get panics for greater hashes |
| HashRing.LeftoverServesNobody | internal/balance/consitenthash/consitenthash.go:77-93 | a key that Delete leaves over serves nobody: what falls to it gets the empty name |
| HashRing.ItoaReadsBack | internal/balance/consitenthash/consitenthash.go:48 | the number in a virtual node's name reads back |
| HashRing.NamesApart | internal/balance/consitenthash/consitenthash.go:48 | different virtual nodes, of whatever nodes, have different names |
| HashRing.DeleteUndoesAdd | internal/balance/consitenthash/consitenthash.go:34-83 | Add then Delete of a new node with new distinct keys restores ring, size and both maps |
| HashRing.CollisionNotUndone | internal/balance/consitenthash/consitenthash.go:50-77 | with a key that was already on the ring it never does |
| HashRing.DeleteUndoesAddExactly | internal/balance/consitenthash/consitenthash.go:34-83 | for any node, any hash and any ring in order, Add then Delete restores the whole state if and only if the node is new, none of its keys was on the ring, and no key it has twice is the greatest left when its turn comes |
| HashRing.AnyOrder | internal/balance/consitenthash/consitenthash.go:34-59 | with distinct keys any order of Adds gives the same ring, maps and lookups |
| HashRing.DeleteIsNeverAdded | internal/balance/consitenthash/consitenthash.go:34-83 | with distinct keys, Delete of any node of a built ring leaves the ring that node was never added to |
| HashRing.RunIsLive | internal/balance/consitenthash/consitenthash.go:34-83 | after any run of Adds and Deletes in which the live nodes and their keys stay distinct, ring, size and both maps are those of the live nodes alone, and nothing has panicked |
| AvPackets.Cache.Write | pkg/rtmp/cache.go:36-62 | files a packet under one of the three slots or none |
| AvPackets.SlotsAreLatest | pkg/rtmp/cache.go:36-62 | after any writes each slot holds the latest packet of its kind |
| AvPackets.FiledExactly | pkg/rtmp/cache.go:36-62 | which slot takes a packet, by the numbers of its tag: metadata first, then video of frame type 1 and AVC packet type 0, then non-video of sound format 10 and AAC packet type 0 |
| AvPackets.SnapshotOrder | pkg/rtmp/subscriber.go:47-60 | the place of metadata, video header and audio header in a snapshot, whichever are there |
| SubscriberQueue.Subscriber.DropAVPacket | pkg/rtmp/subscriber.go:127-155 | run alone on a full queue of size S it never waits, never makes its two extra receives, and leaves what follows the first S-84 packets, then those of them that are audio, key frames or headers |
| SubscriberQueue.Subscriber.WriteAVPacket | pkg/rtmp/subscriber.go:118-125 | queues the packet, or drops from the queue instead; the length never exceeds max(0, S-23) |
| SubscriberQueue.Subscriber.SendCachePacket | pkg/rtmp/subscriber.go:42-63 | writes metadata, video header and audio header in this order, once |
| SubscriberQueue.Subscriber.Receive | pkg/rtmp/subscriber.go:65-79 | takes the packet at the front |
| SubscriberQueue.DropKeeps | pkg/rtmp/subscriber.go:127-155 | of each packet the drop loop leaves as many as there were if it must be kept, and as many as it did not go through if not; it makes none up |
| SubscriberQueue.KeepIs | pkg/rtmp/subscriber.go:135-147 | what must be kept is audio and video of frame type 1 |
| SubscriberQueue.OrderKeptExactly | pkg/rtmp/subscriber.go:127-155 | it leaves distinct packets in the order they were queued in if and only if none that it goes through must be kept |
| QueueSchedule.SafeUnderAnySchedule | pkg/rtmp/subscriber.go:118-155 | with receives between any two channel operations of the producer: the length stays within max(0, S-23), no send waits, the extra receives at 139 and 151 are never reached, every accepted audio packet or key frame is queued, in hand or received, and the loop waits only if the consumer took 62 packets or more while it ran |
| QueueSchedule.WaitsExactly | pkg/rtmp/subscriber.go:127-155 | some schedule with 62 receives makes it wait if and only if the size is 85 or more; below that none does |
| QueueSchedule.StuckForEver | pkg/rtmp/subscriber.go:127-155 | once it waits, no act of either side changes anything |
| QueueSchedule.NextInv | pkg/rtmp/subscriber.go:118-155 | each single step of either side keeps the invariant behind that |
| QueueSchedule.AloneIsWritten | pkg/rtmp/subscriber.go:118-155 | the producer's steps with no receive between them do what the method does |
| StreamDispatch.StreamSource.AddSubscriber | pkg/rtmp/streamSource.go:67-79 | adds a subscriber under its address, or refuses if there is one |
| StreamDispatch.StreamSource.DelSubscriber | pkg/rtmp/streamSource.go:81-87 | removes whatever has that address |
| StreamDispatch.StreamSource.CacheAVMetaPacket | pkg/rtmp/streamSource.go:89-91 | changes the three slots only |
| StreamDispatch.StreamSource.DispatchAVPacket | pkg/rtmp/streamSource.go:93-105 | in whatever order the map is visited, every running subscriber gets the snapshot once and the packet, and stopped ones nothing |
| StreamDispatch.LateJoiner | pkg/rtmp/streamSource.go:67-105 | over any run, what a subscriber has received plus what is queued for it is the latest metadata, video header and audio header as of its first dispatched packet and then every packet dispatched since it joined, if and only if no dispatch found too little room in its queue |
| StreamDispatch.DueInOrder | pkg/rtmp/subscriber.go:42-63 | what is due to a joiner, place by place: the latest metadata, video header and audio header, in this order, and then every packet dispatched |
| StreamDispatch.StoppedGetsNothing | pkg/rtmp/streamSource.go:97-100 | a subscriber that has stopped is handed nothing more by any run |
| StreamDispatch.LeaveThenJoin | pkg/rtmp/streamSource.go:67-87 | one that leaves is gone, and joins again as a new one |
| StreamDispatch.FirstHeaderTwice | pkg/rtmp/publisher.go:62-63 | the first packet dispatched to a subscriber is due to it exactly twice if it is a header, and exactly once if not |
| DispatchSchedule.EveryQueueIsSafe | pkg/rtmp/streamSource.go:93-105 | with all subscribers receiving at any time, each queue is as safe as one producer and one consumer make it |
| DispatchSchedule.LateJoinerUnderAnySchedule | pkg/rtmp/streamSource.go:67-105 | under every schedule, while no write has found its queue full, what a subscriber has received and what is queued is a prefix of what is due to it; and between two dispatches it is all of it, if and only if no write has |
| DispatchSchedule.Isolation | pkg/rtmp/streamSource.go:93-105 | two runs in which the publisher does the same hand a subscriber the same packets between two dispatches, whoever the others are and whatever they do, as long as its own queue did not overflow |
| DispatchSchedule.StuckAfter62 | pkg/rtmp/subscriber.go:127-155 | the dispatcher waits only at an empty queue whose subscriber took 62 packets or more during the drop loop |
| DispatchSchedule.CanGetStuck | pkg/rtmp/publisher.go:62-63 | and it can, for every size of 85 or more, with a publisher that caches and dispatches ordinary video packets, next to another subscriber that has got nothing |
| DispatchSchedule.SticksExactly | pkg/rtmp/streamSource.go:93-105 | some run is held up at a queue of a given size if and only if the size is 85 or more |
| DispatchSchedule.StuckForEver | pkg/rtmp/streamSource.go:93-105 | from then on, whatever happens, it waits, and nobody is handed another packet, joins or leaves |
| DispatchSchedule.DispatchEnds | pkg/rtmp/streamSource.go:93-105 | as long as it is not stuck, a dispatch ends within a number of the dispatcher's own steps that is known when it begins and that no subscriber can add to |
| DispatchSchedule.AloneIsDispatch | pkg/rtmp/streamSource.go:93-105 | the schedule in which nobody interferes does what `StreamDispatch.StreamSource.DispatchAVPacket` does in one step |
| DispatchSchedule.HappensIsNext | pkg/rtmp/streamSource.go:67-91 | every other event does the same in both models |
| Handshake.CalcPos | pkg/rtmp/handshake_server.go:107-113 | the loop computes the position of the digest |
| Handshake.CalcDigestPos | pkg/rtmp/handshake_server.go:107-113 | the position lies in [base+4, base+731] |
| Handshake.PlaceIs | pkg/rtmp/handshake_server.go:107-113 | counted from base+4 it is congruent to the sum of the four bytes modulo 728 |
| Handshake.SignedIsFound | pkg/rtmp/handshake_server.go:86-105 | a digest is found if and only if the 32 bytes at the position are the HMAC of the block without them, in order |
| Handshake.AcceptsExactly | pkg/rtmp/handshake_server.go:74-84 | C1 is accepted if and only if it is signed in one of the two layouts; the one at 772 goes first, and the key for S2 is the HMAC of the 32 bytes found |
| Handshake.StampedIsSigned | pkg/rtmp/handshake_server.go:115-125 | a block stamped in a layout is signed in it |
| Handshake.StampLeaves | pkg/rtmp/handshake_server.go:115-125 | stamping leaves the position and every other byte alone |
| Handshake.PutKeeps | pkg/rtmp/handshake_server.go:86-113 | writing 32 bytes at that position changes neither the position nor the text of the digest |
| Handshake.StampIsFound | pkg/rtmp/handshake_server.go:86-125 | in any block and for either base the stamped digest is found again at its place |
| Handshake.LayoutsApart | pkg/rtmp/handshake_server.go:74-113 | stamping in one layout does not move the place of the other |
| Handshake.S1Verifies | pkg/rtmp/handshake_server.go:115-125 | S1 has the time, the version and the random bytes given, and is signed in the layout at 8 |
| Handshake.S2Verifies | pkg/rtmp/handshake_server.go:127-132 | S2 is the random block but for its last 32 bytes, the HMAC of the others |
| Handshake.HandshakeAgrees | pkg/rtmp/handshake_server.go:11-72 | any signed C1 of another version than 0 is answered: S1 echoes its time, has version 0d0e0a0d and is signed by the server, and the end of S2 is the HMAC of the rest under a key made from the client's digest |
| Handshake.PlainHandshake | pkg/rtmp/handshake_server.go:53-56 | a C1 of version 0 is answered by an S1 of zeros and its own bytes as S2 |
| Handshake.RefusesExactly | pkg/rtmp/handshake_server.go:35-48 | the server refuses if and only if C0 is not 3, or the version is not 0 and C1 is signed in neither layout |
| Handshake.CreateS1 | pkg/rtmp/handshake_server.go:115-125 | fills its block in place with `S1` and touches nothing else |
| Handshake.CreateS2 | pkg/rtmp/handshake_server.go:127-132 | fills its block in place with `S2` and touches nothing else |
| Handshake.ServerHandshake | pkg/rtmp/handshake_server.go:11-72 | what is answered to any input, when it is refused, and what is left to read |

## Left out

- The round trips between writer and reader use fmt-0 and fmt-3 chunks and timestamps that fit, since the writer emits nothing else that a reader takes back; the other formats and extended timestamps are in `ChunkStart` and `ChunkDelta`.
- Write errors on the connection: every write succeeds. After a read error the model says only that an error is returned.
- The scratch buffers for headers (`basicHdrBuf`, `msgHdrBuf`), `bufio.Reader` and `net.Buffers`: the connection is the bytes still to be read and the bytes written.
- AMF, `MetaDataReform`, URLs and the handling of command messages in `pkg/rtmp/conn.go`; the `_result` of the connect response is any admissible message.
- Sending to a subscriber's own connection (`sendAVPacket`, `recordTimeStamp`): the timestamp base is recomputed from its own outputs, so there is no meaningful contract. Its Set Chunk Size branch is unreachable, since only audio, video and metadata packets are dispatched.
- One publisher for each stream key, the clean-up timer, and `subscriberCount`, which the code never lowers: the model keeps the counter and claims nothing about it.
- ChunkConn.Conn.PublishingCycle: stops at the packets; filing and dispatching them is `StreamDispatch`, and reading the FLV tag header is not modelled.
- StreamDispatch.StreamSource.DispatchAVPacket: serves everyone in one step, as when nobody receives meanwhile; `DispatchSchedule` takes the steps one by one.
- The memory model: `stopped`, which is set without the lock, is seen at once.
- HMAC-SHA256 is any function to 32 bytes, the random bytes and the three keys are parameters.
- The hash of the ring is any function to the naturals; `strconv.Atoi` and `ParseInt` are parameters, `sort.Slice` is the one ascending order.
- WeightedRoundRobin.WeightRoundRobinBalance.Get: the current weights are unbounded integers; `WeightedRoundRobin.BalancedBounds` gives the bounds under which 64 bits suffice.
- LruCache.Cache.Add: `OnEvicted` is a log of its calls, so it does not re-enter the cache; the list of elements is a sequence of element objects rather than linked cells.
- SubscriberQueue.Subscriber.Receive: the channel is a sequence, and is never closed, as in the code.
- Random and plain round robin, logging, error numbers and everything under `cmd/`.
