# Verified model of the zero framework's protocol and database cores

A Dafny model of nine components of the zero C++ server framework, with machine-checked properties.
`dafny verify dfyconfig.toml` checks everything.

| component | modules |
|---|---|
| WebSocket framing, RFC 6455 sections 5.2 to 5.4 | `Streams`, `WebSocket` (the code), `WebSocketWire` (the frame grammar), `WebSocketTalk` (conversations); `Bytes` (octets, bits, network order) |
| MySQL connection pool | `PoolMachine`, `PoolBound` (all interleavings), `ConnectionPool` (the methods) |
| HTTP fast GET reader | `HttpScan` (one block), `HttpText` (what it answers, said of the text), `HttpWindow` (calls and whole connections as functions of stream, buffer and reads), `HttpSession` (the code: buffer, reads, server loop) |
| MySQL worker pool | `WorkerMachine` (all interleavings), `WorkerPool` (the methods) |
| HPACK, RFC 7541 sections 5 and 6 | `HpackTable`, `Hpack` (the code), `HpackRoundTrip`, `HpackStandard` (the standard's fields), `HpackReading` (what is accepted at all) |
| HTTP/2 frames, RFC 7540 sections 3.5, 4.1, 6.5 | `Http2` (the code), `Http2Frames` (streams of frames) |
| repository, cache, optimistic lock | `RowCodec`, `RowReading` (any text), `Models`, `DbCache`, `RepositoryMachine`, `RepositoryView` (a map from ids to models), `Repository`, `OptimisticLock` |
| migrations | `MigrationSteps`, `MigrationLaws`, `Migration` |
| query builder | `SqlText` (placeholders), `Identifiers`, `QueryClauses`, `QueryBuilder` (the methods), `QueryLaws`, `QueryText` (the statements as text) |

Conventions. Objects that the source updates in place are classes; each method is proved equal to a
specification function, and the properties are lemmas about those functions. What the outside world
decides (which socket read returns how much, which statement fails, the clock, a random key, the order in
which a `std::map` is walked) is a parameter, so every theorem holds for all of it. For the two pools one
event is one section under the lock or one thing done without it; a run is any finite list of enabled
events of any threads, and the methods are proved to perform only such events while other threads act in
between.

Where the code departs from what it looks like it means, the model keeps the code and states exactly when
the intended property holds:

- A WebSocket message survives, however it is fragmented, if and only if no fragment is empty and the whole
  is below the size limit; an empty one makes both ends close, because a zero-length read or write counts as
  a failure (`WebSocketTalk.ConversationRoundTrip`, `WebSocketTalk.EmptyMessageCloses`).
- The echo fast path agrees with receive-then-send if and only if the frame is final (`WebSocketTalk.EchoAgrees`).
- The end-of-header scan may look one character past its block; it is the intended scan if and only if the
  block does not end in CR LF CR with a LF behind it in memory (`HttpScan.ScanAsIntended`). A connection
  answers each call as its stream calls for, and leaves to the next call what it calls for, if and only if no
  call is harmed by that (`HttpWindow.RunExactly`; the answers alone can agree by luck, when what is left of
  a header is not looked at again). Connections of a short stream are never harmed, whatever the reads and
  whatever lies behind the buffer, and neither are connections of any length whose requests arrive one by one
  in whole reads (`HttpWindow.ShortStreams`, `HttpWindow.WholeRequests`). But for every request of at least
  half the buffer there are reads of a stream of three such requests of which the third is not recognised:
  compaction leaves the first one's last LF where the second one's is still to come
  (`HttpWindow.StaleLineFeed`).
- HPACK round-trips if and only if every name and value is shorter than 2^32 octets
  (`HpackRoundTrip.RoundTrip`). The decoder's indexed-name branches skip one octet too many; they are never
  entered on encoder output. Where RFC 7541 reads a field, the decoder reads that field if and only if it is
  not a literal with an indexed name and its integers are within 32 bits and six octets
  (`HpackStandard.DecoderFollowsStandard`); other spellings are rejected, read past the end of the block, or
  accepted as another header (`HpackStandard.IndexedNamesDepart`, `HpackStandard.ReadAsAnother`). What it
  accepts at all are exactly the standard's fields, read one octet late where a name is indexed
  (`HpackReading.DecoderAccepts`).
- A chunk of HTTP/2 octets cut inside a frame header loses those octets in silence; cut later in the frame,
  the call fails (`Http2Frames.CutInsideFrame`).
- The cached row text round-trips if and only if no column name contains '=' (`RowCodec.RowRoundTrip`).
- The cache stays in step under insert, update, removeById, invalidateCache, findById and expiry. After
  forceRemoveById or a successful updateWithVersion it does so if and only if the row was not cached, and
  after inserting a new row under a generated id if and only if that id could be read back
  (`RepositoryMachine.ForceRemoveCoherent`, `VersionedCoherent`, `InsertCoherent`).
- Migrate and then roll back restores the history if and only if every pending version is newer than every
  applied one (`MigrationLaws.RollbackRestores`).
- A statement with a caller's raw condition can be filled in if and only if the fragment closes its quotes
  and has as many placeholders as values (`QueryLaws.RawDecides`).
- A condition `where(column, op, value)` under a list operator drops its value and compares with an empty list
  (`QueryText.ComparisonBinds`).
- A content-length that is a multiple of 2^64 counts as no body, and transfer-encoding is only seen in lower case
  (`HttpText.LengthOnText`, `HttpText.NoLengthOnText`).
- A stop without waiting can leave accepted work undone (`WorkerMachine.StopFalseAbandons`).

## Model

| member | source | states |
|---|---|---|
| Streams.Stream.ReadFixSize | zero/core/io/stream.cc:14-26 | all `length` octets or failure, however the transport cuts them; length 0 is a failure; what was read is gone either way |
| Streams.Stream.WriteFixSize | zero/core/io/stream.cc:40-53 | all octets are written in order or the write fails after what fitted; no octets is a failure |
| Streams.SentTwice | zero/core/io/stream.cc:40-53 | two writes that both succeed put out what one write of both would |
| WebSocket.ApplyMask | zero/http/ws_session.cc:233-237 | masking in place: bit by bit each octet becomes the exclusive or with the key repeated every four octets, and those in front are kept |
| WebSocket.MaskedTwice | zero/http/ws_session.cc:233-237 | masking with the same key twice gives the payload back |
| Bytes.ExclusiveIsXor | zero/http/ws_session.cc:233-237 | an octet is the exclusive or of two others if and only if each of its eight bits is set exactly where theirs differ |
| Bytes.BigEndianAt | zero/http/ws_session.cc:202-217 | octet i of n in network order is the digit of 256 to the n - 1 - i, the most significant first |
| WebSocket.MaskingIsExclusive | zero/http/ws_session.cc:284-299 | masking is that exclusive or, position by position, and nothing else |
| WebSocket.PayloadUnmasked | zero/http/ws_session.cc:224-237 | what a masked payload adds to the message is, bit by bit, the octets that came under the key that came before them |
| WebSocket.LengthPartOctets | zero/http/ws_session.cc:255-283 | the header octet by octet: final bit and opcode, mask bit and length, then nothing, two or eight octets of length in network order |
| WebSocket.RecvSmallMaskedFrame | zero/http/ws_session.cc:142-167 | the server's small-frame path leaves the same message, accumulators and stream as the general path, for every stream, every limit and every accumulator state |
| WebSocket.ReadLength | zero/http/ws_session.cc:202-217 | the extended length is the big-endian value of the 2 or 8 octets that follow, or the read failed |
| WebSocket.ReadPayload | zero/http/ws_session.cc:219-242 | the size check against any limit (a signed 32-bit count, 64-bit wrap-around), key, payload and unmasking, or the stream after the step that failed, or that the count has gone negative |
| WebSocket.WrappedLengthFails | zero/http/ws_session.cc:219-232 | whatever 32-bit limit is configured, a length so large that the size check wraps around cannot be read as a payload |
| WebSocket.RecvFrame | zero/http/ws_session.cc:188-247 | which path a data frame takes does not show in the result |
| WebSocket.NextFrame | zero/http/ws_session.cc:173-248 | one trip round the receive loop: ping answered, other control skipped, data accumulated, final frame delivered |
| WebSocket.WSRecvMessage | zero/http/ws_session.cc:169-251 | the whole receive loop equals the recursive reading of the input, and it ends on every input |
| WebSocket.WriteLengthPart | zero/http/ws_session.cc:255-283 | header and extended length, in network order, or failure |
| WebSocket.WriteBody | zero/http/ws_session.cc:284-299 | key and masked payload of a client, or the payload as it is; a client masks the message in place |
| WebSocket.WSSendMessage | zero/http/ws_session.cc:253-304 | exactly the octets of one frame with the shortest length form go out, or the stream is closed after what fitted; when it succeeds they end with the key and the payload under it, bit by bit, or with the payload as it is |
| WebSocket.WSPing | zero/http/ws_session.cc:310-320 | an empty final ping frame, closing the stream when it does not fit |
| WebSocket.WSPong | zero/http/ws_session.cc:322-334 | an empty final pong frame, closing the stream when it does not fit |
| WebSocket.EchoSmallFrame | zero/http/ws_session.cc:101-140 | every branch of the echo fast path: what it consumed, wrote and answered |
| WebSocketWire.RecvAccepts | zero/http/ws_session.cc:169-251 | input that begins with a message of the frame grammar is delivered: first opcode, joined payloads, one pong per ping, the rest unread |
| WebSocketWire.RecvFinds | zero/http/ws_session.cc:169-251 | whatever was delivered was such a message at the front of the input, and it is produced |
| WebSocketWire.RecvExactly | zero/http/ws_session.cc:169-251 | a message is delivered if and only if the input begins with one and the transport takes its pongs |
| WebSocketTalk.SpeakSpells | zero/http/ws_session.cc:253-334 | the sender's calls put the grammar's frames on the wire, pings and pongs in between included |
| WebSocketTalk.ConversationRoundTrip | zero/http/ws_session.cc:169-304 | any fragments, any keys, pings and pongs between them: one receive call returns the first opcode and the joined payload, writes one pong per ping and leaves the following octets unread, if and only if no fragment is empty and the whole is below the limit |
| WebSocketTalk.MessagesRoundTrip | zero/http/ws_session.cc:169-304 | the same for a sequence of messages, one receive call each |
| WebSocketTalk.SingleMessageRoundTrip | zero/http/ws_session.cc:169-304 | a single message comes back if and only if it is non-empty and below the limit |
| WebSocketTalk.EmptyMessageCloses | zero/http/ws_session.cc:297-303 | the empty message closes its sender and its receiver |
| WebSocketTalk.EchoOfOthers | zero/http/ws_session.cc:101-118 | the fast path answers a ping by 0x8A 0x00, or closes if that does not fit, passes over a pong, and refuses every other frame but a masked one of 1 to 125 octets, each time taking two octets |
| WebSocketTalk.EchoBreaksOff | zero/http/ws_session.cc:120-125 | a frame that breaks off consumes what is there and echoes nothing |
| WebSocketTalk.EchoAgrees | zero/http/ws_session.cc:101-140 | on a masked data frame of 1 to 125 octets the fast path leaves the stream as receive and send do, if and only if the frame is final |
| PoolMachine.InvKept | zero/db/mysql_connection.cc:417-568 | every event of every thread keeps: each connection ever created is idle, being checked, held by one caller, or gone, exactly one of these; the counter is their number; after a drain the queue stays empty |
| PoolMachine.EveryInterleaving | zero/db/mysql_connection.cc:426-568 | in every interleaving the counter is idle plus being checked plus held, and a held connection has one holder, is not idle and not closed |
| PoolMachine.Exclusive | zero/db/mysql_connection.cc:455-511 | a held connection is held once, by one thread, queued nowhere and checked by nobody |
| PoolMachine.ClosedForever | zero/db/mysql_connection.cc:554-568 | once close has left its critical section the idle queue is empty and the pool stopped in every later state |
| PoolMachine.ReleaseAfterClose | zero/db/mysql_connection.cc:539-552 | a connection released after that is closed for good and uncounted, whatever ran in between or runs later |
| PoolMachine.ShutdownComplete | zero/db/mysql_connection.cc:539-568 | closed, nobody inside, all released: the counter is 0 and every connection ever opened is gone |
| PoolBound.PotentialKept | zero/db/mysql_connection.cc:426-435 | every event keeps counted plus about-to-connect below the bound |
| PoolBound.TotalBounded | zero/db/mysql_connection.cc:470-485 | with at most T threads inside getConnection the counter never exceeds max(minConnections, maxConnections - 1 + T) |
| PoolBound.SerializedCallsRespectMaximum | zero/db/mysql_connection.cc:470-485 | calls one at a time keep the counter within maxConnections |
| PoolBound.BoundAttained | zero/db/mysql_connection.cc:470-485 | for every minimum, every positive maximum and every T >= 1 some interleaving reaches the bound, so it cannot be lowered |
| ConnectionPool.MySQLConnectionPool.constructor | zero/db/mysql_connection.cc:406-424 | the pool starts with exactly the connections whose connect succeeded, queued in order and counted |
| ConnectionPool.FirstThatServes | zero/db/mysql_connection.cc:455-477 | the first idle connection that is fresh and alive, or replaced, is handed out in queue order; the ones before it are gone and uncounted, the ones behind it stay |
| ConnectionPool.NoneServes | zero/db/mysql_connection.cc:479-485 | when none serves, a new connection is handed out if and only if there is room after the uncounting and the connect succeeds |
| ConnectionPool.MySQLConnectionPool.CreateConnection | zero/db/mysql_connection.cc:426-435 | a connect that succeeds is counted once and handed to the caller; a failed one counts nothing |
| ConnectionPool.MySQLConnectionPool.CheckIdleTimeout | zero/db/mysql_connection.cc:437-453 | an expired connection is closed and uncounted, one that is not stays with the thread |
| ConnectionPool.MySQLConnectionPool.CheckConnection | zero/db/mysql_connection.cc:513-532 | a dead connection is uncounted; a healthy or recently checked one is left as it is |
| ConnectionPool.MySQLConnectionPool.TryFront | zero/db/mysql_connection.cc:459-477 | pop, then validate without the lock and replace if dead, while other threads act: the thread ends with a connection of its own or back at the loop |
| ConnectionPool.MySQLConnectionPool.GetConnection | zero/db/mysql_connection.cc:455-511 | whatever other threads do, the caller gains exactly the connection returned, or nothing, by events of the machine; and with nobody else about it gets the first idle connection that serves, else one more if there is room, each failing one being uncounted |
| ConnectionPool.MySQLConnectionPool.AwaitConnection | zero/db/mysql_connection.cc:487-511 | the wait ends with one more connection or with none; a stopped pool hands out nothing |
| ConnectionPool.MySQLConnectionPool.ReleaseConnection | zero/db/mysql_connection.cc:539-552 | one release event: requeued while the pool runs, closed and uncounted otherwise |
| ConnectionPool.MySQLConnectionPool.Close | zero/db/mysql_connection.cc:554-568 | the drain empties the queue and uncounts exactly what was in it |
| HttpScan.EndStays | zero/http/http_session.cc:20-37 | more characters never move the end of a complete header, and never complete one inside the old block |
| HttpScan.ScanAsIntended | zero/http/http_session.cc:20-37 | the scan the code performs is the intended one if and only if the block does not end in CR LF CR with LF behind it |
| HttpScan.EveryHeaderCanOverrun | zero/http/http_session.cc:20-37 | every header has such a cut: all but its last LF, with a LF in memory behind |
| HttpScan.PathPartExactly | zero/http/http_session.cc:84-92 | a target matches a path if and only if it is the path or the path followed by a query |
| HttpScan.RouteHitExactly | zero/http/http_session.cc:129-164 | which complete GET headers without a body hit a route |
| HttpText.CloseOnText | zero/http/http_session.cc:39-54 | for a header that is something, the first connection field, blanks and a value: asks to close if and only if the value begins with close, all in whatever case |
| HttpText.CloseExactly | zero/http/http_session.cc:39-54 | the close answer is exactly that of such a reading of the text, and false where the field does not occur |
| HttpText.LengthOnText | zero/http/http_session.cc:56-71 | for a first content-length field with digits: a body if and only if their number is not a multiple of 2^64 |
| HttpText.NoLengthOnText | zero/http/http_session.cc:72 | without one: a body if and only if transfer-encoding: occurs in lower case |
| HttpText.BodyExactly | zero/http/http_session.cc:56-73 | the body answer is exactly that of the text |
| HttpText.ScanExactly | zero/http/http_session.cc:129-164 | a complete header is a hit if and only if it has 16 characters, announces no body, and reads GET, a target on the route and the first HTTP/ behind it; the close flag is that of its text |
| HttpText.CommonFields | zero/http/http_session.cc:39-54 | behind a line without a colon, Connection: close closes and Connection: keep-alive does not |
| HttpWindow.ServeOnText | zero/http/http_session.cc:166-203 | which streams call for a hit, and with which close flag, said of the text of their first header |
| HttpSession.FindHeaderEnd | zero/http/http_session.cc:20-37 | the pointer loop finds the first CR LF CR LF, its last candidate reaching one past the block |
| HttpSession.ScanConnectionClose | zero/http/http_session.cc:39-54 | true if and only if the first connection field, in whatever case and behind its blanks, begins with close, in whatever case |
| HttpSession.ScanHasMessageBody | zero/http/http_session.cc:56-73 | true if and only if the number of the first content-length field is not 0 in 64 bits, or without one a lower-case transfer-encoding field occurs |
| HttpSession.MatchFixedPath | zero/http/http_session.cc:84-92 | true if and only if the target without its query is the path |
| HttpSession.ScanGetHeader | zero/http/http_session.cc:129-164 | the status, length and close flag of the scan |
| HttpWindow.ServeSeen | zero/http/http_session.cc:166-203 | how much of the answer the characters seen so far decide |
| HttpWindow.HitConsumes | zero/http/http_session.cc:197-201 | a hit consumes at least one character |
| HttpWindow.CallExactly | zero/http/http_session.cc:166-203 | one call, for any buffer contents, stream and read sizes: it answers what the whole remaining stream calls for and leaves exactly what that calls for, if and only if no scan is misled into a hit, or into the general parser where the stream does not go there |
| HttpWindow.FullExactly | zero/http/http_session.cc:181-185 | the buffer-full failure occurs if and only if one header, complete or not, is longer than the whole buffer and no scan of the call was misled |
| HttpWindow.RunExactly | zero/http/http_server.cc:60-118 | a whole connection does call by call what its stream calls for, whatever the read sizes, if and only if none of its calls is harmed |
| HttpWindow.AnswersOfRun | zero/http/http_server.cc:60-118 | the calls a stream calls for are seen as the answers computed from stream and buffer size alone |
| HttpWindow.ShortStreams | zero/http/http_session.cc:112-127 | for all read sizes and whatever lies behind the buffer: a stream shorter than the buffer whose hits consume less than half of it is answered as it calls for |
| HttpWindow.WholeRequests | zero/http/http_session.cc:112-127 | any number of requests, each at most half the buffer (rounded up), that arrive one per read: no call is harmed and the answers are those the stream calls for, whatever lies behind the buffer |
| HttpWindow.StaleLineFeed | zero/http/http_session.cc:112-127 | for every request between half and all of the buffer: sent three times and cut before the second one's last LF, two hits and an unrecognised request are seen where the stream calls for three hits |
| HttpWindow.RequestExists | zero/http/http_session.cc:129-164 | such requests exist: one of 19 characters |
| HttpSession.HttpSession.constructor | zero/http/http_session.cc:96-101 | a fresh session is the zeroed window with everything still to come |
| HttpSession.HttpSession.CompactReadBufferIfNeeded | zero/http/http_session.cc:112-127 | compaction in place: the unread characters at the front, stale ones behind them, a full buffer starting at its front |
| HttpSession.HttpSession.ReadMore | zero/http/http_session.cc:186-191 | a socket read of any size stores the next characters behind the others, loses and invents nothing |
| HttpSession.HttpSession.CompactAndScan | zero/http/http_session.cc:175-180 | the scan is that of the compacted block with the character behind it, and none if the block length is negative |
| HttpSession.HttpSession.ReceiveOnce | zero/http/http_session.cc:175-201 | one turn of the loop: it reads on, or ends as the call of the whole window does |
| HttpSession.HttpSession.RecvFixedRouteGet | zero/http/http_session.cc:166-203 | the loop performs exactly the call of `HttpWindow`; unharmed, its result and what is left depend only on the characters the peer sends and the buffer size: a hit if and only if they begin with a header that fits and is a request for the route, with the close flag if and only if its text asks to close; it returns for a full buffer if and only if no scan was misled and one header, complete or not, is longer than the buffer |
| HttpSession.ServeRoute | zero/http/http_server.cc:60-118 | the keep-alive loop gives the answers of the run, which are those of the stream alone when no call is harmed |
| WorkerMachine.InvKept | zero/db/mysql_worker_pool.cc:36-103 | every event keeps: dequeued then queued is the accepted order; every accepted item is queued, with one worker, or done; the pending count is queued plus in flight; without an impatient stop a worker leaves only a stopped, empty pool |
| WorkerMachine.EveryInterleaving | zero/db/mysql_worker_pool.cc:36-103 | for N workers and any interleaving: FIFO order, nothing runs twice or before it was dequeued, no callback before its run, pending exact |
| WorkerMachine.AfterJoin | zero/db/mysql_worker_pool.cc:49-59 | when all workers have left, exactly what was dequeued has run and been called back, once each |
| WorkerMachine.StopTrueFinishesEverything | zero/db/mysql_worker_pool.cc:49-59 | when stop(true) returns and nobody called stop(false), the queue is empty and every accepted item has run exactly once |
| WorkerMachine.StopFalseAbandons | zero/db/mysql_worker_pool.cc:73-75 | with a stop(false) an accepted item may never run and stays counted as pending |
| WorkerMachine.StoppedAcceptsNothing | zero/db/mysql_worker_pool.cc:38-42 | after a stop nothing more is accepted |
| WorkerPool.MySQLWorkerPool.constructor | zero/db/mysql_worker_pool.cc:19-26 | at least one worker is started |
| WorkerPool.MySQLWorkerPool.SubmitTask | zero/db/mysql_worker_pool.cc:36-47 | accepted at the end of the queue and counted, or dropped when stopped |
| WorkerPool.MySQLWorkerPool.RunOne | zero/db/mysql_worker_pool.cc:79-102 | dequeue, run, count down, call back, in this order, with other threads in between |
| WorkerPool.MySQLWorkerPool.Work | zero/db/mysql_worker_pool.cc:65-103 | a worker leaves only a stopped pool, and after a patient stop only an empty one; it stays waiting only when nothing is queued |
| WorkerPool.MySQLWorkerPool.StopPool | zero/db/mysql_worker_pool.cc:49-59 | when the join returns, what the run did is exactly what the machine allows; without an impatient stop nothing is left |
| HpackTable.StaticTableSize | zero/http/hpack.cc:18-83 | the table has the 62 entries of the source |
| Hpack.LookupStaticTable | zero/http/hpack.cc:85-92 | the first equal entry, entry 0 not counting, or 0 if there is none |
| Hpack.EncodeInteger | zero/http/hpack.cc:94-109 | the loop writes the prefix form of RFC 7541 section 5.1 |
| Hpack.DecodeInteger | zero/http/hpack.cc:111-124 | the loop reads it modulo 2^32, stopping quietly at the end of the data |
| Hpack.EncodeStringLiteral | zero/http/hpack.cc:126-131 | size cut to 32 bits, never Huffman, then the octets |
| Hpack.DecodeStringLiteral | zero/http/hpack.cc:133-145 | the octets and the offset behind them, or rejection; every read is in bounds |
| Hpack.EncodeField | zero/http/hpack.cc:150-163 | an index when the table has the whole header, else a literal with a literal name |
| Hpack.Encode | zero/http/hpack.cc:147-166 | the headers of the walk, one after the other |
| Hpack.DecodeField | zero/http/hpack.cc:172-209 | one header of any form, or why not; an accepted one advances the offset strictly |
| Hpack.DecodeLiteral | zero/http/hpack.cc:180-205 | a literal whose name is spelt out or looked up, the lookup reading from the octet after its own |
| Hpack.Decode | zero/http/hpack.cc:168-212 | the loop folds the headers into the caller's map and ends on every input |
| HpackRoundTrip.IntegerRoundTrip | zero/http/hpack.cc:94-124 | for every prefix size 1 to 8, every 32-bit value, any bits above the prefix and anything around it, the value comes back and exactly its octets are consumed |
| HpackRoundTrip.StringRoundTrip | zero/http/hpack.cc:126-145 | a string literal comes back and only it is consumed |
| HpackRoundTrip.FieldRoundTrip | zero/http/hpack.cc:150-205 | one encoded header is one decoder turn, spelt as an index or with a literal name, never as an indexed name |
| HpackRoundTrip.RoundTrip | zero/http/hpack.cc:147-212 | decode(encode(h)) is exactly h, in whatever order the map is walked, if and only if every name and value is shorter than 2^32; then no read leaves the block and no indexed-name branch is entered |
| HpackRoundTrip.EncodeInjective | zero/http/hpack.cc:147-166 | different header maps never share an encoding |
| HpackStandard.IntAgrees | zero/http/hpack.cc:111-124 | an integer of the standard is read modulo 2^32 if it has at most six octets, and shifted beyond 32 bits otherwise |
| HpackStandard.StringAgrees | zero/http/hpack.cc:133-145 | a plain string of the standard is read as such if and only if its size is within these limits |
| HpackStandard.DecoderFollowsStandard | zero/http/hpack.cc:168-212 | on any octets where sections 6.1 and 6.2 of RFC 7541 read a field (static table, plain strings), the decoder reads the same field with the same end if and only if it is not a literal with an indexed name and its integers are within the limits |
| HpackStandard.BlockFollows | zero/http/hpack.cc:168-212 | a block of such fields only decodes to the headers the standard gives it |
| HpackStandard.ReadAsAnother | zero/http/hpack.cc:180-187 | the standard's `:authority` with the value 01 61 62 63 64 is accepted as `:path` with the value a, three octets early |
| HpackStandard.IndexedNamesDepart | zero/http/hpack.cc:180-187 | other spellings of an indexed name are rejected or read past the end |
| HpackReading.IntRead | zero/http/hpack.cc:111-124 | within six octets and 32 bits a complete integer is read as it is, and one that is cut off as at least its prefix |
| HpackReading.StringAccepted | zero/http/hpack.cc:133-145 | within these limits the decoder takes a string if and only if the standard reads a plain one there, and the same one |
| HpackReading.HuffmanRejected | zero/http/hpack.cc:138-141 | a Huffman-coded string is rejected, whatever its size |
| HpackReading.DecoderAccepts | zero/http/hpack.cc:168-212 | whatever the octets, within the limits: the decoder takes a field if and only if the standard reads one there, late by one octet for an indexed name, it is the same field with the same end, and everything else is rejected |
| HpackReading.LimitsDecide | zero/http/hpack.cc:168-212 | wherever that reading takes a field, the decoder agrees if and only if the limits hold |
| HpackReading.BlockAccepted | zero/http/hpack.cc:168-212 | a block is accepted if and only if it is a sequence of such fields, and with exactly its headers |
| HpackReading.BlockIsStandard | zero/http/hpack.cc:168-212 | without indexed names the decoder accepts exactly the standard's blocks, with the standard's headers |
| HpackReading.EncoderFollowsStandard | zero/http/hpack.cc:147-166 | an encoded header is that header by the standard: an index with the top bit set if and only if the table has it whole, else 0x40 and two plain strings |
| HpackReading.EncodedIsStandard | zero/http/hpack.cc:147-166 | decoding by the standard gives exactly the encoded headers |
| Http2.FrameHeader.Decode | zero/http/http2.cc:23-32 | big-endian fields, the reserved bit dropped; short input changes nothing |
| Http2.FrameHeader.Encode | zero/http/http2.cc:34-44 | writes the nine octets of the header in place and no others |
| Http2.HeaderRoundTrip | zero/http/http2.cc:23-44 | a header comes back if and only if its length fits 24 bits and its stream id 31 |
| Http2.HeaderOctets | zero/http/http2.cc:34-44 | the nine octets one by one: length, type, flags, stream id with the top bit cleared |
| Http2.HeaderInverse | zero/http/http2.cc:23-44 | writing back what was read restores the octets with the reserved bit cleared |
| Http2.SettingsFrame.Decode | zero/http/http2.cc:46-56 | whole parameters in order, or failure with the old ones kept when the length is not a multiple of 6 |
| Http2.SettingsFrame.Encode | zero/http/http2.cc:58-70 | six octets a parameter, in order |
| Http2.SettingsRoundTrip | zero/http/http2.cc:46-70 | every list of 16-bit ids and 32-bit values comes back |
| Http2.SettingsInverse | zero/http/http2.cc:46-70 | writing back what was read restores the payload |
| Http2.Http2Connection.constructor | zero/http/http2.h:127-130 | no preface, no acknowledgement, frame size 16384, 100 streams |
| Http2.Http2Connection.HandleSettingsFrame | zero/http/http2.cc:125-143 | an acknowledgement is noted; otherwise the last value per setting is adopted, or nothing if malformed |
| Http2.Http2Connection.HandleFrame | zero/http/http2.cc:114-117 | only SETTINGS frames change the connection |
| Http2.Http2Connection.ReceiveFrames | zero/http/http2.cc:109-122 | the loop over frames takes whole frames in order and stops at the first that is cut or refused |
| Http2.Http2Connection.Receive | zero/http/http2.cc:95-123 | preface once, then frames |
| Http2.Http2Connection.SendLocalSettings | zero/http/http2.cc:76-93 | one SETTINGS frame with its own three parameters |
| Http2Frames.FramesFold | zero/http/http2.cc:109-122 | frames followed by anything: the frames are folded in, the rest is read in the state they leave |
| Http2Frames.CutInsideFrame | zero/http/http2.cc:109-112 | a chunk cut inside a frame succeeds if and only if the cut is inside its header, and the cut frame is lost |
| Http2Frames.SplitsAgree | zero/http/http2.cc:95-143 | preface plus frames in any chunks cut between frames ends as one call with all of it, and that is the fold of SETTINGS with the last value per id winning |
| Http2Frames.PeerAdoptsSettings | zero/http/http2.cc:76-93 | a peer fed sendLocalSettings takes over exactly the sender's frame size and stream limit |
| Http2Frames.FrameOnOctets | zero/http/http2.cc:110-123 | one whole frame by its octets: type 4 with an odd flags octet is an acknowledgement, with an even one its payload has to be a multiple of six, other types are passed over |
| Http2Frames.ParameterOnOctets | zero/http/http2.cc:125-144 | identifier 5 sets the frame size, 3 the number of streams, others nothing; values in network order |
| Http2Frames.LocalSettingsOctets | zero/http/http2.cc:76-93 | the settings frame that is sent, octet by octet |
| Http2Frames.PrefaceRequired | zero/http/http2.cc:95-108 | before the preface a chunk that does not begin with its 24 octets is refused and changes nothing |
| RowCodec.PrintParse | zero/db/db_repository.h:45-59 | the printed length is parsed back for every 64-bit size |
| RowCodec.RowToString | zero/db/db_repository.h:39-48 | the text of the columns in the order of the walk, separated by newlines |
| RowCodec.ReadColumn | zero/db/db_repository.h:53-70 | one turn of the cursor: column, end, or a cursor that overflows 64 bits |
| RowCodec.RowFromString | zero/db/db_repository.h:50-73 | the cursor loop; without an overflow it advances strictly and ends on every text |
| RowCodec.EntryRoundTrip | zero/db/db_repository.h:39-73 | one encoded column is one turn, whatever its value contains |
| RowCodec.RowRoundTrip | zero/db/db_repository.h:39-73 | a row comes back from its text if and only if no column name contains '=' |
| RowReading.ColumnOnText | zero/db/db_repository.h:50-73 | on any text of the form name, =, size, :, rest: the column with as many characters as the size says or as there are, one newline passed over, or the end when the size is no number |
| RowReading.NoColumnOnText | zero/db/db_repository.h:53-57 | without = and a : behind it the reading ends |
| RowReading.ParseOnText | zero/db/db_repository.h:58-63 | a size with blanks, a sign and a tail: its number, counted down from 2^64 behind a minus sign, or nothing beyond 64 bits |
| Models.PrintParseInt | zero/db/db_model.h:69-71 | a printed 64-bit number is parsed back |
| Models.KeptTwice | zero/db/db_model.h:297-346 | storing a field's own text in it again changes nothing |
| RowReading.IntOnText | zero/db/db_model.h:69-71 | a signed number with blanks, a sign and a tail, or 0 when it does not fit 64 bits |
| RowReading.FlagOnText | zero/db/db_model.h:81-83 | a flag is set by exactly four texts |
| Models.SaveLoad | zero/db/db_model.h:126-144 | loading gives a well-formed model, and fromRow(toRow(m)) is m |
| Models.GeneratedId | zero/db/db_model.h:168-170 | an id the database generated survives being set in the model |
| DbCache.MemoryDbCache.Get | zero/db/db_cache.h:57-68 | a live value, or nothing; an expired item is erased |
| DbCache.MemoryDbCache.Set | zero/db/db_cache.h:70-83 | the value with its expiry, other keys untouched |
| DbCache.MemoryDbCache.Remove | zero/db/db_cache.h:85-89 | the key is gone, the rest untouched |
| DbCache.SetThenGet | zero/db/db_cache.h:57-83 | after a set and any number of gets of any keys, the value is there exactly until its time to live is over, and other keys answer as before |
| DbCache.GetErases | zero/db/db_cache.h:57-68 | a get that finds nothing leaves nothing under its key, and every other key as it was |
| RepositoryMachine.CacheKeyInjective | zero/db/db_repository.h:35-37 | in one table different ids have different keys |
| RepositoryMachine.TablesApart | zero/db/db_repository.h:35-37 | two tables share a key only if a table name contains a colon |
| RepositoryMachine.TablesCollide | zero/db/db_repository.h:35-37 | with a colon they can |
| RepositoryMachine.CoherenceKept | zero/db/db_repository.h:154-308 | each covered operation, with any failures, keeps: what is cached for an id loads as the visible row does |
| RepositoryMachine.CacheIsTransparent | zero/db/db_repository.h:250-278 | after any run of covered operations findById answers as without a cache; a failing query can only turn a miss into nothing |
| RepositoryMachine.ForceRemoveCoherent | zero/db/db_repository.h:317-324 | forceRemoveById keeps the cache in step if and only if it fails or nothing was cached |
| RepositoryMachine.VersionedCoherent | zero/db/db_repository.h:219-248 | updateWithVersion does if and only if it changes no row or nothing was cached |
| RepositoryMachine.InsertCoherent | zero/db/db_repository.h:170-186 | an insert under a generated id does if and only if it takes no effect or the id could be read back |
| RepositoryView.UpdateWrites | zero/db/db_repository.h:190-214 | a successful update writes exactly the model's columns but the key into exactly that row |
| RepositoryView.ViewStep | zero/db/db_repository.h:140-330 | every operation does to the models that can be found what it does to a map from ids to models |
| RepositoryView.ViewOfRun | zero/db/db_repository.h:140-330 | over every run of all operations, whatever fails, the models that can be found are those of the map |
| RepositoryView.FindsLastWritten | zero/db/db_repository.h:250-275 | after any run of the operations that keep the cache in step, findById answers the map's lookup: the model last inserted or updated under the id, unless removed since |
| RepositoryView.UpdateThenFind | zero/db/db_repository.h:190-214 | after a successful update findById answers exactly the model, whatever was cached |
| RepositoryView.RemoveThenFind | zero/db/db_repository.h:288-307 | a removed id is found no more |
| RepositoryView.RemoveWrites | zero/db/db_repository.h:288-307 | removing marks the row or takes it out, and does nothing to the others |
| RepositoryView.InsertThenFind | zero/db/db_repository.h:154-188 | after an insert whose id is read back findById answers the model with its id |
| RepositoryView.CachedForFiveMinutes | zero/db/db_repository.h:271-273 | a row that was found is cached for exactly 300 seconds |
| Repository.DbRepository.constructor | zero/db/db_repository.h:108-111 | a repository over an empty cache is in step |
| Repository.DbRepository.Insert | zero/db/db_repository.h:154-188 | row stored, model given its id, row cached under it; nothing changes when the statement fails |
| Repository.DbRepository.Update | zero/db/db_repository.h:190-214 | true if and only if the model is valid, not new, binds another column and the statement succeeds; then each bound column but the key of the row holds the model's text, its other columns and all other rows are as they were, and the cached row is dropped |
| Repository.DbRepository.UpdateWithVersion | zero/db/db_repository.h:219-248 | with a version column: true if and only if the row has the model's version, and then row and model are one version on; without one: a plain update |
| Repository.DbRepository.FindById | zero/db/db_repository.h:250-278 | with a cache in step the answer is what it would be without one, and stays so; the row found is cached |
| Repository.DbRepository.RemoveById | zero/db/db_repository.h:288-308 | the row is marked or gone, all others are as they were, and the cached row is dropped |
| Repository.DbRepository.ForceRemoveById | zero/db/db_repository.h:317-324 | the row is gone whatever the soft-delete setting, the cache untouched |
| Repository.DbRepository.InvalidateCache | zero/db/db_repository.h:121-124 | only the cached row of this id is dropped |
| OptimisticLock.StepKept | zero/db/db_repository.h:219-248 | every load, edit and commit keeps: the version is the initial one plus the wins, no copy is newer than the row, and a copy as new was made from the row as it stands |
| OptimisticLock.VersionCountsWins | zero/db/db_repository.h:219-248 | over any interleaving the version grows by exactly the number of calls that returned true |
| OptimisticLock.NoLostUpdate | zero/db/db_repository.h:219-248 | a call that is let through returns true if and only if the row is still as its client last saw it |
| OptimisticLock.WinnerHoldsTheRow | zero/db/db_repository.h:243-246 | a winner's model then equals the stored row, version included |
| MigrationSteps.SameElements | zero/db/db_migration.cc:40-53 | an ascending list of versions is determined by which versions it has |
| MigrationLaws.CommandClose | zero/db/db_migration.cc:87-176 | one migrate or rollback, whatever fails, adds at most its failed history writes to the drift between schema and history |
| MigrationLaws.DriftBound | zero/db/db_migration.cc:55-176 | over every run the versions in effect and the versions recorded differ by at most the number of failed history writes |
| MigrationLaws.MigrateInOrder | zero/db/db_migration.cc:97-124 | exactly the due versions run, ascending; a failure leaves a prefix of them recorded and nothing else |
| MigrationLaws.MigrateTwice | zero/db/db_migration.cc:87-130 | after a successful migrate a second one to the same target finds nothing to do |
| MigrationLaws.UndoHistory | zero/db/db_migration.cc:149-171 | a rollback takes the newest records off the history, one by one |
| MigrationLaws.RollbackInOrder | zero/db/db_migration.cc:149-171 | the downs of the newest versions run newest first, as many as asked for or recorded, up to the first that is unknown or fails, and exactly those finished leave the history |
| MigrationLaws.RollbackRestores | zero/db/db_migration.cc:87-176 | migrate, then a rollback of as many versions, restores the history if and only if every pending version is newer than every applied one, and then the schema too if each down undoes its up |
| Migration.DbMigrationManager.RegisterMigration | zero/db/db_migration.cc:22-25 | one more version in map order, or a replaced one |
| Migration.DbMigrationManager.EnsureHistoryTable | zero/db/db_migration.cc:27-38 | one statement, which may fail |
| Migration.DbMigrationManager.AppliedVersions | zero/db/db_migration.cc:40-53 | the history in version order; a failed query reads as an empty one |
| Migration.DbMigrationManager.RecordApplied | zero/db/db_migration.cc:55-63 | recorded, or a failed write; a version already recorded fails |
| Migration.DbMigrationManager.RemoveRecord | zero/db/db_migration.cc:65-72 | the record is gone, or a failed write |
| Migration.DbMigrationManager.CurrentVersion | zero/db/db_migration.cc:74-77 | the highest version read, or 0 |
| Migration.ReportedVersion | zero/db/db_migration.cc:74-77 | the version migrate and rollback report is the greatest one recorded, or 0 when none is or it could not be read |
| Migration.DbMigrationManager.Collect | zero/db/db_migration.cc:100-107 | the pending versions in map order |
| Migration.DbMigrationManager.ApplyVersion | zero/db/db_migration.cc:109-123 | up, then the record; the first failure ends the turn |
| Migration.DbMigrationManager.ApplyAll | zero/db/db_migration.cc:109-124 | the pending versions in order up to the first failure, and the names of those finished |
| Migration.DbMigrationManager.UndoVersion | zero/db/db_migration.cc:150-170 | down, then the record; an unknown version or the first failure ends the turn |
| Migration.DbMigrationManager.UndoSome | zero/db/db_migration.cc:149-171 | the newest versions, newest first, up to the given number or the first failure |
| Migration.DbMigrationManager.Migrate | zero/db/db_migration.cc:87-130 | the database afterwards, success, the names applied, the reported version and the message, under any failures |
| Migration.DbMigrationManager.Rollback | zero/db/db_migration.cc:132-176 | the same for a rollback, newest first |
| SqlText.StatementExactly | zero/db/mysql_connection.cc:170-256 | a text and a parameter vector make a statement if and only if the quotes close and the placeholders outside quotes are as many as the values |
| SqlText.StatementOfDocument | zero/db/db_query.cc:386-535 | filling the values into the placeholders from left to right gives the document with its literals in place |
| SqlText.OutsideQuotes | zero/db/mysql_connection.cc:170-256 | outside quotes every question mark is a placeholder |
| SqlText.QuotedHides | zero/db/mysql_connection.cc:170-256 | inside any of the three quotes none is |
| Identifiers.EscapeColumn | zero/db/db_query.cc:650-674 | expressions and the star untouched, dotted names part by part, other names quoted |
| Identifiers.EscapeParts | zero/db/db_query.cc:654-666 | the loop over dotted parts; nothing follows a trailing dot |
| Identifiers.EscapedPlain | zero/db/db_query.cc:650-674 | the empty name, the star and expressions as they are; a name without a dot between backticks, its own doubled |
| Identifiers.EscapedDotted | zero/db/db_query.cc:654-666 | a dotted name is its first part escaped, the dot, and the rest as a name of its own |
| Identifiers.QuoteNeutral | zero/db/db_query.cc:667-673 | whatever a name contains, quoted it holds no placeholder and closes its quotes |
| Identifiers.QuoteReadsBack | zero/db/db_query.cc:667-673 | a quoted name reads as exactly that name; nothing in it can end it early |
| Identifiers.EscapedNeutral | zero/db/db_query.cc:650-674 | an escaped column is harmless if and only if it is no expression or a harmless one |
| QueryBuilder.DbQuery.constructor | zero/db/db_query.cc:24-26 | no clauses yet |
| QueryBuilder.DbQuery.AndWhere | zero/db/db_query.cc:66-82 | one more comparison, joined by AND unless it is the first |
| QueryBuilder.DbQuery.OrWhere | zero/db/db_query.cc:79-82 | one more comparison, joined by OR unless it is the first |
| QueryBuilder.DbQuery.WhereNull | zero/db/db_query.cc:84-92 | one more null test |
| QueryBuilder.DbQuery.WhereIn | zero/db/db_query.cc:94-112 | one more list test |
| QueryBuilder.DbQuery.AddWhereRaw | zero/db/db_query.cc:57-64 | one more raw condition with its values |
| QueryBuilder.DbQuery.WhereBetween | zero/db/db_query.cc:128-131 | a raw condition with two placeholders and two values |
| QueryBuilder.DbQuery.AddHaving | zero/db/db_query.cc:137-144 | one more group condition with its values |
| QueryBuilder.DbQuery.OrderBy | zero/db/db_query.cc:164-167 | one more order column, escaped |
| QueryBuilder.DbQuery.GroupBy | zero/db/db_query.cc:169-172 | one more group column, escaped |
| QueryBuilder.DbQuery.AddJoin | zero/db/db_query.cc:188-201 | one more join, its table escaped |
| QueryBuilder.DbQuery.BuildClause | zero/db/db_query.cc:562-590 | one condition: as many placeholders as it binds values, by operator |
| QueryBuilder.DbQuery.BuildIn | zero/db/db_query.cc:577-586 | one placeholder and one value per list element |
| QueryBuilder.DbQuery.BuildWhere | zero/db/db_query.cc:552-592 | text and values of the condition, in step, clause by clause |
| QueryBuilder.DbQuery.BuildGroupBy | zero/db/db_query.cc:603-621 | group and having; having, with its values, only behind a group |
| QueryBuilder.DbQuery.BuildHaving | zero/db/db_query.cc:610-620 | group conditions joined in order, with their values |
| QueryBuilder.DbQuery.BuildOrderBy | zero/db/db_query.cc:594-601 | order columns with their direction |
| QueryBuilder.DbQuery.BuildLimitOffset | zero/db/db_query.cc:623-630 | limit and offset, each left out when 0 |
| QueryBuilder.DbQuery.BuildJoins | zero/db/db_query.cc:632-636 | joins in the order they were added |
| QueryBuilder.DbQuery.BuildLock | zero/db/db_query.cc:638-644 | the lock clause, if any |
| QueryBuilder.DbQuery.BuildSelect | zero/db/db_query.cc:386-408 | the clauses in the order of the language, values in the order of their placeholders |
| QueryBuilder.DbQuery.BuildCount | zero/db/db_query.cc:526-535 | the same joins and conditions under a count |
| QueryBuilder.DbQuery.BuildInsert | zero/db/db_query.cc:411-433 | columns and values in one order |
| QueryBuilder.DbQuery.BuildInsertBatch | zero/db/db_query.cc:435-467 | the first row's columns, then every row's values for them |
| QueryBuilder.DbQuery.BuildRow | zero/db/db_query.cc:453-464 | one row of placeholders with its values, null where a column is missing |
| QueryBuilder.DbQuery.BuildInsertIgnore | zero/db/db_query.cc:469-473 | an insert that keeps an existing row |
| QueryBuilder.DbQuery.BuildUpsert | zero/db/db_query.cc:475-494 | an insert that updates the named columns, or all of them |
| QueryBuilder.DbQuery.BuildUpdate | zero/db/db_query.cc:496-513 | assignments first, then the condition, values likewise |
| QueryBuilder.DbQuery.BuildAssignments | zero/db/db_query.cc:500-507 | one assignment and one value per column |
| QueryBuilder.DbQuery.BuildDelete | zero/db/db_query.cc:515-524 | a delete under the condition |
| QueryLaws.ChainIsGood | zero/db/db_query.cc:47-216 | every chain of calls whose fragments have as many placeholders as values builds a query with that property |
| QueryLaws.ConditionsFillIn | zero/db/db_query.cc:386-535 | after every such chain, select, count, update and delete filled in from left to right give the statement with its literals in place |
| QueryLaws.InsertsFillIn | zero/db/db_query.cc:411-494 | the same for insert, insert-ignore, upsert and batch |
| QueryLaws.RawDecides | zero/db/db_query.cc:114-117 | a delete under a raw condition fills in if and only if the fragment closes its quotes and has as many placeholders as values |
| QueryText.SelectStatement | zero/db/db_query.cc:386-408 | for every chain of calls, as one concatenation: columns, table, joins, every condition in call order with its link, groups with their conditions, order, page and lock; values of the conditions, then of the groups |
| QueryText.CountStatement | zero/db/db_query.cc:526-535 | the count under the same joins and conditions, with their values |
| QueryText.UpdateStatement | zero/db/db_query.cc:496-513 | the assignments in order, then WHERE and every condition a call added, in call order; the assigned values, then the values of the conditions |
| QueryText.DeleteStatement | zero/db/db_query.cc:515-524 | the table, then WHERE and every condition a call added, with their values |
| QueryText.InsertStatement | zero/db/db_query.cc:411-433 | each column once, a placeholder and the value for each, in one order |
| QueryText.InsertIgnoreStatement | zero/db/db_query.cc:469-473 | the same with id=id on a duplicate key |
| QueryText.UpsertStatement | zero/db/db_query.cc:475-494 | the same with the named columns, or all of them, taken over on a duplicate key |
| QueryText.BatchStatement | zero/db/db_query.cc:435-467 | the columns once and a group of placeholders a row; no rows make no statement |
| QueryText.ComparisonBinds | zero/db/db_query.cc:66-82 | a comparison adds its value if and only if its operator is not in or not in a list; under those the value is dropped and the parentheses are empty |
| QueryText.UpdateOfOneRow | zero/db/db_query.cc:496-513 | one such statement character by character |
| QueryLaws.BatchEntry | zero/db/db_query.cc:453-464 | a batch has rows times columns values, and entry r * columns + i is row r's value for column i, or null |

## Left out

- HttpSession.HttpSession.RecvFixedRouteGet: only the fast-scan mode is modelled, and the buffer with the one cell behind it that the scan can reach. When an overrun leaves the read position behind the data and compaction does not reset it, the next block length wraps below zero, which C++ does not define; the model reports that and stops there.
- WebSocketTalk.ConversationRoundTrip: size limits up to 2^31 here and in the other theorems about received messages. Beyond that the receiver's signed 32-bit count goes negative in the middle of a message; the methods and their specification cover every limit and report that as an outcome of its own.
- WebSocket.WSSendMessage: the random masking key is a parameter, and a transport that fails is modelled by how many octets it still takes.
- Hpack.DecodeInteger: a continuation octet shifted by 32 bits or more is an explicit outcome, as C++ does not define it; a shift by 28 is taken modulo 2^32.
- RowCodec.RowFromString: when a length makes the cursor overflow 64 bits the model reports it and does not follow the cursor backwards.
- Models.SaveLoad: floating-point fields are not modelled; integers, texts, flags and unsigned numbers are.
- RepositoryMachine.CacheIsTransparent: one repository writes the table; ids are compared as strings, models have no automatic timestamps, the soft-delete column is not bound, hooks do nothing, and cached texts fit a std::string. updateWhere, removeWhere and the batch operations bypass the cache and are not modelled.
- DbCache.MemoryDbCache.Set: the 64-bit overflow of clock plus time to live, which needs centuries of uptime.
- OptimisticLock.NoLostUpdate: clients change neither the key nor the version of their copies, and the version stays below 2^63 - 1.
- Repository.DbRepository.Insert: automatic timestamps and hooks, which would add columns of their own to the row.
- Repository.DbRepository.Update: automatic timestamps and hooks, as for Insert.
- MigrationLaws.DriftBound: a failing up or down changes nothing, and a failing history write is not performed.
- QueryLaws.ConditionsFillIn: SQL comments are not recognised by the placeholder scanner, and names that contain a parenthesis must themselves hold no placeholder.
- ConnectionPool.MySQLConnectionPool.GetConnection: what clocks, pings and connects decide are parameters, and other threads perform finitely many events, so that waiting ends; statistics are not modelled.
- WorkerPool.MySQLWorkerPool.Work: exceptions of the work are swallowed by the source and do not show; a callback handed to a scheduler counts as called back.
- WebSocket handshake, opcodes beyond text, binary, continue, ping and pong, and payloads of received control frames: the receiver does not read them.
- Generated HTTP parsers, servlets, routers, the HTTP client and its connection pool, the key-value server, configuration centres, sharding, validators, schema generation: outside the modelled cores.
- The DbQuery methods that send a built statement and read its result: they add nothing to the statement.
- Aggregate queries: the closing parenthesis is passed through the name quoting, so the statements they build are not meaningful.
- runExecute, runQuery, timers, fibers, TLS, logging and the MySQL client library: I/O or foreign code.
