# A verified model of vhttp's protocol code

vhttp is an HTTP server in C, derived from h2o. This project models the stateful protocol code, the codecs and the
data structures of vhttp in Dafny and proves what they are for: claims about whole runs, about every interleaving, about
round trips, and about fast forms that refine simple ones. `dafny verify dfyconfig.toml` checks all of it.

| file | models |
|---|---|
| `Http1Stream.dfy` | a stream of HTTP/1 requests and its decomposition into messages (section 6.3 of RFC 9112) |
| `Http1.dfy` | one HTTP/1 connection: reading, bodies, interim and final responses, persistence |
| `ChunkDecoder.dfy` | the incremental decoder of chunked request bodies, in place in its buffer |
| `Chunked.dfy` | chunked responses, and a decoder after section 7.1 of RFC 9112 that reads them back |
| `Tickets.dfy` | rotation of session-ticket keys over time |
| `TicketStore.dfy` | nodes that share ticket keys through memcached with compare-and-swap |
| `QuicKeys.dfy` | the per-thread cache of QUIC keys, a generation counter and a read-write lock |
| `Connections.dfy` | connection counters, limits and the wake-up of listeners |
| `Neverbleed.dfy` | the transaction queues of a thread, and the neverbleed process that answers them |
| `Huffman.dfy` | the generator of the nibble-wise Huffman table, and the HPACK decoder that runs it |
| `RespReader.dfy`, `RespFormat.dfy` | the incremental Redis reply parser, and the formatting it undoes |
| `AsyncQueue.dfy` | the callbacks of asynchronous Redis commands |
| `HashTable.dfy` | the chained hash table, with rehashing and iteration |
| `Sds.dfy` | quoting, splitting and joining of strings |
| `Golomb.dfy` | Golomb-coded sets |
| `HexDigits.dfy`, `Hiredis.dfy`, `Lines.dfy`, `Options.dfy`, `Powers.dfy`, `Sequences.dfy` | what several of these share |

## How the model is made

Code that changes an object step by step is a class whose methods are proved against functions on values or against a
state invariant. Code that many threads or nodes run is a state machine over its atomic steps, and the theorems hold for
every run of it. Linked lists live in an explicit memory, a map from addresses to nodes, so that a freed node cannot be
read. Sizes and times are mathematical integers except where the width shows: 64-bit keys and shifts in the Golomb
coder, the 32-bit hash, the first byte of a key name, the 32-bit lengths of `redisFormatSdsCommandArgv`.

What the program gets from outside is an argument: the time, random bytes, what a read returns, whether a write or an
allocation fails, what a callback or a handler does next. `Serve` of `Http1`, `Neverbleed` and `AsyncQueue` is a run: an
object from its start through any sequence of events, where those that cannot take place are skipped. The head parser of
HTTP/1 is any parser that decides by a shortest prefix: `Http1Stream.Grammar` lists the texts it takes for heads and
those at which it gives up. Serialization of tickets is lossless, and keys are opaque.

## Where the code and its words differ

- `Connections.LimitsHold`: the comment in `src/main.c` at line 3878 says that `max_connections` plus the number of
  threads may be accepted. The atomic increment and its test do not let that happen.
- `Tickets.Repetition`: an update that brings in the 256th first byte succeeds, and the next update stops the server;
  `Tickets.RepetitionStops` is such a vector.
- `Tickets.SortedIff`: a vector whose newest key is pending while no key is valid gets the new key in front of a later
  one; `Tickets.OvertakingHappens` is such a vector.
- `Tickets.RunSafe`: four keys are enough to bound the vector of the internal updater.
- `Chunked.BodyDecodes`: trailers that are announced and turn out to be empty leave the body without its end.
- `Http1.Connection.OnInformationalComplete`: an interim response queued behind another is not written if the final
  response is sent meanwhile; `Http1.DropInterim` shows it wherever a handler may send two.
- `RespFormat.SdsExact`: lengths of 4 GiB and more are printed modulo 2^32.
- `ChunkDecoder.Decoder.DecodeChunked`: the overhead guard refuses more than 75% of overhead, not 80% as its comment
  says. It looks only where a read ends, so that it depends on how the body was cut: `ChunkDecoder.StoppedIff` says when
  no cut is refused, and `ChunkDecoder.CutsDiffer` has a body with two cuts.
- `Sds.SplitJoin`: splitting does not undo joining in general; "aa" between "a" and "b" is found one byte too early, as
  `Sds.JoinNotUndone` shows.

## Model

| member | source | states |
|---|---|---|
| `Http1Stream.HeadStable` | lib/http1.c:640-643 | what the head parser has decided on the bytes received, a complete head or an error, stays decided when more bytes arrive |
| `Http1Stream.HeadTrim` | lib/http1.c:640-643 | a complete head is parsed the same when nothing follows it |
| `Http1Stream.StreamSnoc` | lib/http1.c:110-132 | a whole request appended to a stream of whole requests is such a stream |
| `Http1Stream.FirstIs` | lib/http1.c:308-322 | a whole request at the front of the input is the first message of the decomposition, whatever follows: no-body, content-length and chunked framing alike |
| `Http1Stream.DecomposeStream` | lib/http1.c:148-171 | a stream of whole requests with anything after it decomposes into exactly those requests and then the decomposition of the rest |
| `Http1.Fixup` | lib/http1.c:428-533 | a tunnel request is never persistent |
| `Http1.Connection.constructor` | lib/http1.c:110-132 | a new connection waits for a head, has received nothing and handed on nothing |
| `Http1.Connection.Close` | lib/http1.c:134-146 | closing keeps the record of what was received and handed on |
| `Http1.Connection.Cleanup` | lib/http1.c:148-171 | without persistence the connection closes; with it, the assertions that no proceed callback and no entity reader are left hold, exactly the current request leaves the input, and the next request is handled if it is acceptable |
| `Http1.Connection.RejectRequest` | lib/http1.c:204-221 | reading stops and persistence ends; the error status is sent unless the handler has started, and the connection closes at once exactly when the response was already complete |
| `Http1.Connection.SendBadRequest` | lib/http1.c:556-560 | the request is given up before anything was sent for it, with the status given, and the connection stays open for the answer |
| `Http1.Connection.HandleFragment` | lib/http1.c:233-264 | the bytes taken and the data they carry move from the input to the request; a complete body hands on the message made of the head and the entity the handler finds; the request is handed on whole exactly when the body is complete, and forwarded in pieces exactly when the handler streams; when it cannot be kept or the handler refuses it, the request is given up with status 502 |
| `Http1.Connection.CompleteBody` | lib/http1.c:248-263 | the handler finds everything of the body it has not had in the entity, and the request of that head and that body is handed on, also when the response is already done and the next request starts |
| `Http1.Connection.ForwardPart` | lib/http1.c:597-611 | the handler finds in the entity what was buffered and the new part, reading stops until the handler proceeds, and all it has found so far is the body so far |
| `Http1.Connection.CollectPart` | lib/http1.c:584-595 | the part is kept behind what was collected and reading goes on |
| `Http1.Connection.HandleChunked` | lib/http1.c:266-294 | a chunked body is refused with 400 when broken or when the overhead guard strikes, and with 413 when the limit is reached, exactly then; otherwise the request becomes whole exactly when the input holds the rest of the body |
| `Http1.Connection.HandleLength` | lib/http1.c:308-322 | a body of known length makes the request whole exactly when the input holds the rest of it, and never is refused; in a tunnel it has no end |
| `Http1.Connection.HandleEntity` | lib/http1.c:88-90 | both readers by one contract: refusal and status, completion, persistence and tunnel flag follow the bytes, and nothing handed on is taken back |
| `Http1.Connection.HandleIncomingRequest` | lib/http1.c:624-747 | the request is refused, with its status, exactly when the head or the start of the body calls for it; otherwise it is handed on whole exactly when the input holds all of it |
| `Http1.Connection.HandleHead` | lib/http1.c:645-717 | a complete head leads to the refusal status of the first check that fails, or to a whole request exactly when all of it is there, a tunnel, or a body in progress, with persistence and tunnel flag as fixed up |
| `Http1.Connection.StartTunnel` | lib/http1.c:688-709 | a tunnel is submitted at once, with its head and the payload that came early in the entity, and reading stops until the handler proceeds |
| `Http1.Connection.StartBody` | lib/http1.c:661-687 | the head leaves the input, 100 Continue is written before the body is looked at if expected, otherwise the body is refused or read |
| `Http1.Connection.OnRead` | lib/http1.c:749-763 | the bytes are added to what was received, nothing handed on is taken back, the connection is closed or the request failed exactly when what was read calls for it, and a request that what was read completes is handed on |
| `Http1.Connection.OnContinueSent` | lib/http1.c:535-546 | after 100 Continue the postponed body is refused, with its status, or handed on whole exactly as its bytes say; a failed write closes |
| `Http1.Connection.ProceedRequest` | lib/http1.c:569-582 | the entity is the buffer, the buffer is emptied and reading resumes; on failure the request is given up, with status 502 if the handler has not started, and the connection closes exactly when the response was complete |
| `Http1.Connection.SendNow` | lib/http1.c:1013-1064 | the final head is written exactly once, before the first data, and only while no other write is outstanding; a refused upstream writes nothing and closes exactly when no body is awaited or the request is a tunnel |
| `Http1.Connection.FinalSend` | lib/http1.c:997-1014 | a send is put off exactly while an interim response is being written |
| `Http1.Connection.DoSendInformational` | lib/http1.c:1069-1077 | all queued interim responses go out in one write, in order |
| `Http1.Connection.SendInformational` | lib/http1.c:1100-1126 | an interim response is written at once, or queued while another is being written |
| `Http1.Connection.OnInformationalComplete` | lib/http1.c:1079-1098 | the queue is written exactly when no final send was put off; otherwise the final send is written and the queue is not |
| `Http1.Connection.OnSendNext` | lib/http1.c:808-816 | the handler may send again, and the request is unchanged |
| `Http1.Connection.OnSendComplete` | lib/http1.c:830-867 | a trailer goes out first if there is one; without persistence the connection closes once no body is awaited; with it the next request is taken up |
| `Http1.Connection.OnTrailersSent` | lib/http1.c:818-828 | as for the end of a response without trailers |
| `Http1.Connection.OnTimeout` | lib/http1.c:765-797 | a timeout closes the connection and takes back nothing that was handed on |
| `Http1.HandedInOrder` | lib/http1.c:110-171 | the requests handlers found whole, head and body, are the first of the sequential decomposition of all bytes received, however they were split into reads; all of them whenever the connection reads, in the middle of a body too; and the decomposition of exactly the bytes taken when a request is whole |
| `Http1.SplitInvariant` | lib/http1.c:749-763 | two connections that received the same bytes in different pieces and are reading have handed on the same requests |
| `Http1.BodyByBytes` | lib/http1.c:266-322 | whether the next bytes of a body are refused, with which status, and whether they end it is what the bytes of the request in one piece say |
| `Http1.RefusedAlike` | lib/http1.c:266-322 | two connections in the body of the same request, fed to the same byte in different pieces, refuse it with the same status or not at all, and end it alike |
| `Http1.ForwardedSoFar` | lib/http1.c:597-611 | for a body forwarded in pieces, what the handler has found so far is exactly the body of the bytes so far, ends with the entity, and no byte of it is left in the input |
| `Http1.AlwaysSafe` | lib/http1.c:148-171 | a tunnel is never persistent, a non-tunnel body never exceeds the limit, a finished persistent response without pending body has no entity reader, and every earlier request was answered by interim responses and then one final head |
| `Http1.OrderedMeans` | lib/http1.c:997-1098 | the order kept on what is written means, and is meant by: interim responses, then one final head, then data |
| `Http1.Connection.Step` | lib/http1.c:749-1126 | an event takes place exactly when its handler is installed or the contract of request handlers allows it, has the effect of its callback, and otherwise changes nothing |
| `Http1.Serve` | lib/http1.c:110-1126 | a run from the start through any events: between two moments lies the effect of the event, or no change when it cannot take place; at the end what handlers found is the sequential decomposition of the bytes of the reads that took place; tunnels, limits, and one final head after all interim responses for every request |
| `Http1.DropInterim` | lib/http1.c:1079-1126 | in every state that allows it, an interim response queued behind another is never written if the final response is sent before the first one has gone out |
| `Http1.NextRequest` | lib/http1.c:110-171 | a whole request joins the earlier ones and the bytes after it are the whole of the next input |
| `Http1.MoreChunks` | lib/http1.c:266-294 | the bytes the chunked decoder takes extend the body by what it decodes, and complete it exactly when the decoder says so |
| `Http1.MoreFixed` | lib/http1.c:308-322 | the bytes taken extend a content-length body and complete it when the length is reached |
| `Http1.TakeWhole` | lib/http1.c:710-715 | a request without a body is whole while its head still lies in the input |
| `Http1.OrderedInterims` | lib/http1.c:1069-1077 | writing queued interim responses before the head keeps the order |
| `ChunkDecoder.RunAppend` | deps/picohttpparser/picohttpparser.c:543-667 | decoding in two pieces gives the state, data and remainder of decoding in one |
| `ChunkDecoder.RunTrim` | deps/picohttpparser/picohttpparser.c:663-668 | what remains after the body is the end of the input, and the bytes before it are the body by themselves |
| `ChunkDecoder.MoveDown` | deps/picohttpparser/picohttpparser.c:605-621 | moving bytes towards the front of the buffer leaves every other byte alone |
| `ChunkDecoder.Decoder.ReadSize` | deps/picohttpparser/picohttpparser.c:552-584 | the size digits are read to their end, refused without a digit, after 16 digits, or before a foreign byte |
| `ChunkDecoder.Decoder.ReadExt` | deps/picohttpparser/picohttpparser.c:586-603 | the rest of the size line is skipped and leads to data, or to the trailers for size zero |
| `ChunkDecoder.Decoder.ReadData` | deps/picohttpparser/picohttpparser.c:605-621 | as much of the chunk as there is moves behind the data already in front |
| `ChunkDecoder.Decoder.ReadCrlf` | deps/picohttpparser/picohttpparser.c:623-636 | carriage returns and a line feed must follow the data |
| `ChunkDecoder.Decoder.ReadLineHead` | deps/picohttpparser/picohttpparser.c:637-646 | an empty trailer line ends the body |
| `ChunkDecoder.Decoder.ReadLineMiddle` | deps/picohttpparser/picohttpparser.c:648-657 | a trailer line is skipped to its end |
| `ChunkDecoder.Decoder.Scan` | deps/picohttpparser/picohttpparser.c:550-661 | the loop does what decoding byte by byte does, with the data compacted in front |
| `ChunkDecoder.Decoder.DecodeChunked` | deps/picohttpparser/picohttpparser.c:543-676 | refines decoding byte by byte: data in front, then the unread bytes; complete, broken or incomplete exactly as the bytes say, except for the overhead guard, which strikes exactly when the totals kept across reads say so |
| `ChunkDecoder.DecodeAll` | deps/picohttpparser/picohttpparser.c:543-676 | for every way of reading a body in pieces that the overhead guard does not end, outcome and data are those of the body in one piece |
| `ChunkDecoder.StoppedIff` | deps/picohttpparser/picohttpparser.c:669-674 | some way of reading a body in pieces is ended by the overhead guard exactly when some prefix that does not end the body has too much overhead |
| `ChunkDecoder.CutsDiffer` | deps/picohttpparser/picohttpparser.c:669-674 | a body that is complete in one piece and refused in two |
| `ChunkDecoder.CompleteBodyDecodes` | deps/picohttpparser/picohttpparser.c:543-667 | every body that is complete under section 7.1 of RFC 9112 with sizes of at most 16 digits is decoded to the same data and the bytes after it are left |
| `Chunked.EncodeChunked` | lib/http1.c:971-995 | the bytes before and after the data of one send are those of the grammar: size line, line end, last chunk, or the open chunk of a failure |
| `Chunked.SizeReads` | lib/http1.c:980-981 | the printed size line is read back as the size |
| `Chunked.ChunkReads` | lib/http1.c:979-986 | one chunk followed by anything decodes to its data and the decoding of the rest |
| `Chunked.SendsRead` | lib/http1.c:971-995 | any number of sends in progress add exactly their data |
| `Chunked.FinalReads` | lib/http1.c:983-989 | the final send completes the body, given what follows the last chunk |
| `Chunked.BodyDecodes` | lib/http1.c:846-853 | a chunked response that ends well decodes under section 7.1 of RFC 9112 to the data sent with nothing left over, exactly unless trailers are announced and there are none to send |
| `Chunked.FailedNeverDecodes` | lib/http1.c:991-995 | a chunked response that ends in an error never decodes as complete |
| `Chunked.TrailerReads` | lib/core/util.c:875-914 | the server-timing trailer is a trailer section with its empty line; an empty trailer is none |
| `Chunked.PrefixFits` | lib/http1.c:963-969 | the size line of any 64-bit size fits the 19-byte buffer with its terminator |
| `Chunked.SendVector` | lib/http1.c:1024-1064 | the buffers written are the head if due and the framed data, and there are at most three more than were passed in |
| `Lines.Crlf` | deps/hiredis/read.c:120-144 | the position is that of the first carriage return followed by a line feed |
| `Lines.CrlfStable` | deps/hiredis/read.c:120-144 | a line end found stays the first when more bytes follow |
| `Tickets.FindForEncryption` | src/ssl.c:258-273 | the loop finds the first started key unless that has expired |
| `Tickets.EncKeyIndex` | src/ssl.c:258-273 | the key found is valid now and every key in front of it has yet to start |
| `Tickets.FindByName` | src/ssl.c:297-318 | the first key with the name, asking for renewal exactly when the key in front of it has started; none exactly when no key has the name |
| `Tickets.KeptExactly` | src/ssl.c:409-427 | removal of collisions keeps exactly the last entry of every group with one first byte, in order, so that first bytes are distinct |
| `Tickets.TicketVector.RemoveOld` | src/ssl.c:400-407 | the expired entries at the end are removed, and a removal is reported |
| `Tickets.TicketVector.FindCollision` | src/ssl.c:415-417 | a later entry with the same first byte is found exactly if there is one |
| `Tickets.TicketVector.RemoveCollisions` | src/ssl.c:412-427 | the in-place loop leaves exactly the entries to keep |
| `Tickets.Pigeonhole` | src/ssl.c:438-446 | 256 used first bytes need 256 entries |
| `Tickets.TicketVector.AvoidCollision` | src/ssl.c:438-446 | the renaming loop ends within 256 steps at the first free byte going up from the random one, wrapping around |
| `Tickets.TicketVector.Update` | src/ssl.c:395-455 | the server stops exactly at 256 distinct first bytes; otherwise the vector is what is kept, with a fresh key in front exactly when none is valid or the newest is older than a quarter of the lifetime |
| `Tickets.UpdateGives` | src/ssl.c:430-455 | after every update first bytes are distinct and a key to encrypt with exists |
| `Tickets.Repetition` | src/ssl.c:395-455 | an update repeated at the same time changes nothing and reports nothing, exactly unless the first one filled the 256th first byte: then the repetition stops the server |
| `Tickets.RepetitionStops` | src/ssl.c:395-455 | a vector that an update takes and leaves in a state that no update takes |
| `Tickets.SortedIff` | src/ssl.c:430-453 | an update keeps a sorted vector sorted exactly unless no key is valid while the newest is still pending |
| `Tickets.OvertakingHappens` | src/ssl.c:430-453 | a sorted vector and an update after which it is not sorted |
| `Tickets.RotatingHasKey` | src/ssl.c:480-492 | between two updates at most 120 seconds apart there is always a key to encrypt with |
| `Tickets.RotatingStep` | src/ssl.c:395-455 | an update in a run keeps the spacing of the keys and every key that has not expired |
| `Tickets.RunSafe` | src/ssl.c:480-492 | in every run from an empty vector with a lifetime of at least 240 seconds: a key at every instant, newest first, distinct first bytes, and at most four keys |
| `Tickets.RunRetains` | src/ssl.c:297-318 | in every run a key stays until it expires, and looking up its name finds it and no other |
| `TicketStore.DistinctPermuted` | src/ssl.c:240-247 | distinct first bytes do not depend on the order of the vector |
| `TicketStore.Unaltered` | src/ssl.c:690-722 | a vector that update_tickets leaves unaltered is, up to order, the one that was read |
| `TicketStore.PutKeeps` | src/ssl.c:694-719 | an addition or compare-and-swap keeps the invariant of the store |
| `TicketStore.NextKeeps` | src/ssl.c:665-730 | every step of any node, and expiry, keeps the invariant |
| `TicketStore.SharedKeysSafe` | src/ssl.c:665-730 | in every interleaving, what a node installs is up to order a value the store held, with distinct first bytes and a key for the time of the read; every value written was computed from the one it replaced |
| `QuicKeys.BarrierPassed` | src/main.c:4202-4203 | a thread past the startup barrier finds the first vector installed and counted |
| `QuicKeys.ReaderStepKeeps` | src/ssl.c:1257-1283 | every step of a reading thread keeps its part of the invariant: copies are whole versions, no older than the generation read |
| `QuicKeys.UpdaterKeeps` | src/ssl.c:457-468 | every step of the updater, torn writes under the lock included, keeps the invariant |
| `QuicKeys.NextKeeps` | src/ssl.c:457-468 | every step of the updater and of any number of threads keeps the invariant |
| `QuicKeys.ReturnsFreshKeys` | src/ssl.c:1257-1283 | whenever update_quic_keys returns, the cached keys are a whole version of the vector, no older than the generation last read and at most one install newer, and not empty |
| `QuicKeys.NeverEmpty` | src/ssl.c:1267-1268 | a thread that holds the read lock finds the vector not empty |
| `QuicKeys.FindKeyset` | src/ssl.c:1285-1294 | the first cached key with the identifier, none exactly when there is none |
| `QuicKeys.KeysetByName` | src/ssl.c:1285-1294 | in the keys of a vector with distinct first bytes an identifier names exactly the key of its ticket |
| `Connections.CountsKept` | src/main.c:2605-2631 | every step on the counters keeps them equal to the units taken and the units granted within the limits |
| `Connections.TakeOne` | src/main.c:3877-3883 | a counter equal to the units taken grants no unit beyond the limit |
| `Connections.CounterReaches` | src/main.c:2605-2613 | the decrement that leaves the limit starts a notification that has yet to reach every thread |
| `Connections.NotifyReaches` | src/main.c:2598-2603 | a notifier passes no thread without leaving a message |
| `Connections.ThreadReaches` | src/main.c:4067-4082 | a worker stops its listeners only on a count at the limit |
| `Connections.NextKeeps` | src/main.c:3848-3906 | every step of any thread keeps the invariant |
| `Connections.LimitsHold` | src/main.c:3952-4065 | in every interleaving the counter is the live connections plus the units reserved or being given back, live connections stay within max_connections and live QUIC connections within max_quic_connections |
| `Connections.NoLostWakeup` | src/main.c:4205-4211 | in every interleaving no worker waits with its listeners stopped below the limit unless a message is queued for it or a notifier is on its way to it |
| `Neverbleed.AsyncNb.SubmitWritePending` | src/main.c:495-510 | a write is under way afterwards exactly when one was or something is queued and fewer than 200 transactions wait |
| `Neverbleed.AsyncNb.Submit` | src/main.c:463-469 | a transaction joins the end of the write queue and nothing else changes, inside a completion too; a write is under way unless 200 wait |
| `Neverbleed.AsyncNb.Elsewhere` | src/main.c:495-510 | what happens outside the thread, that its write arrives or that the process works, takes place exactly when it can and keeps what is owed |
| `Neverbleed.AsyncNb.OnWriteComplete` | src/main.c:474-491 | the written transaction waits for its response if it has one, and reading is on; the next request goes out |
| `Neverbleed.AsyncNb.ReadOne` | src/main.c:536-541 | the transaction that waits first gets the next response, and it is the response to its own request |
| `Neverbleed.AsyncNb.ReadTurn` | src/main.c:536-556 | one turn: the first that waits reads its own response, its completion submits, and there is another turn exactly when somebody waits and a response is there |
| `Neverbleed.AsyncNb.OnReadReady` | src/main.c:532-565 | the first n that wait read their own responses, n less than all only when none is left; their completions have submitted more, in order; reading stops exactly when nobody waits |
| `Neverbleed.Daemon.SendResponses` | deps/neverbleed/neverbleed.c:678-699 | results go out in the order of their requests, up to the first that is not finished, and what is owed does not change |
| `Neverbleed.Daemon.Take` | deps/neverbleed/neverbleed.c:1911-1988 | a request is read and joins the end of the chain unless it bears no response; what is owed, and its order, does not change |
| `Neverbleed.Daemon.Finish` | deps/neverbleed/neverbleed.c:1804-1826 | work finished out of order sends nothing, work finished in front does; what is owed does not change |
| `Neverbleed.AsyncNb.Step` | src/main.c:474-565 | an event takes place exactly when it can, with the whole new state of thread and process, and otherwise changes nothing |
| `Neverbleed.Serve` | src/main.c:419-565 | a run from the start through any events, each with its effect or none: the k-th response read is the one to the k-th response-bearing request written and goes to that transaction; at most 200 wait; a non-empty write queue has a write outstanding or a full read queue; a non-empty read queue is being read for and is what the process owes next |
| `Huffman.WalkEncode` | misc/mkhufftbl.py:356-372 | bit-by-bit decoding undoes encoding |
| `Huffman.WalkInverse` | misc/mkhufftbl.py:356-372 | what was read is the encoding of what was put out and the way to the node reached |
| `Huffman.TreeIsSuitable` | misc/mkhufftbl.py:50-308 | every full tree of 257 leaves, each symbol once in any order, none above depth 4 and the end of string last and below depth 7, gives a code for which the generator is proved |
| `Huffman.DecodedIff` | lib/http2/hpack.c:109-125 | exactly the encodings padded with at most seven ones decode, to what was encoded |
| `Huffman.TraversedWalks` | misc/mkhufftbl.py:386-407 | a recorded transition takes the walk where its four bits take it, has the same output, and is a failure exactly when the end-of-string symbol is met |
| `Huffman.Context.Add` | misc/mkhufftbl.py:356-369 | exactly the nodes on the way of the code word are added, and only the last gets the symbol |
| `Huffman.Context.MakeTree` | misc/mkhufftbl.py:371-372 | adding all code words gives exactly the tree of the code |
| `Huffman.Context.SetNodeId` | misc/mkhufftbl.py:374-384 | inner nodes are numbered in preorder, and exactly those at which at most seven ones lead are marked |
| `Huffman.Context.Traverse` | misc/mkhufftbl.py:386-407 | the sixteen transitions are appended in the order of their values, and the one-symbol assertion holds |
| `Huffman.Context.BuildTransitions` | misc/mkhufftbl.py:409-417 | every node from there down gets its transitions and nothing else changes |
| `Huffman.Context.PrintRow` | misc/mkhufftbl.py:431-456 | the entries printed are those of the transitions, flags included |
| `Huffman.Context.Print` | misc/mkhufftbl.py:426-461 | row k of the printed table is that of the node with number k |
| `Huffman.Generate` | misc/mkhufftbl.py:463-483 | for every suitable code the printed table follows the bit-by-bit walk: same output, same node, failure exactly at end-of-string, accepted exactly where the input may end |
| `Huffman.DecodeHuffman` | lib/http2/hpack.c:109-125 | the decoder on a generated table decodes what section 5.2 of RFC 7541 says and refuses everything else |
| `Huffman.GenerateAndDecode` | misc/mkhufftbl.py:463-483 | generator and decoder together: a string of bytes decodes to exactly what it encodes, or to nothing if it encodes nothing |
| `Huffman.RowCount` | misc/mkhufftbl.py:426-461 | inner nodes, which are the rows, are one fewer than leaves |
| `Huffman.LeavesAreSymbols` | misc/mkhufftbl.py:356-371 | the tree of a code has as many leaves as there are symbols |
| `Huffman.StatesFitByte` | misc/mkhufftbl.py:426-461 | a suitable code has exactly 256 states, which fit a byte |
| `RespReader.SeekNewline` | deps/hiredis/read.c:120-144 | the nested loops find the first line end |
| `RespReader.ReadLongLong` | deps/hiredis/read.c:148-173 | the signed number up to the carriage return, -1 for anything else |
| `RespReader.StepStable` | deps/hiredis/read.c:367-414 | what one step takes does not depend on what follows |
| `RespReader.RunAppend` | deps/hiredis/read.c:445-525 | parsing in two pieces is parsing in one, unless the first has failed; then the failure stays |
| `RespReader.CompleteOk` | deps/hiredis/read.c:190-213 | completing an object leaves a task stack of the right shape |
| `RespReader.Reader.SetError` | deps/hiredis/read.c:46-70 | an error empties the buffer and the task stack and stays |
| `RespReader.Reader.MoveToNextTask` | deps/hiredis/read.c:190-213 | the object is handed up through every array it completes, and the stack index stays in [-1, 8] |
| `RespReader.Reader.ProcessLineItem` | deps/hiredis/read.c:215-247 | status, error and integer replies are taken with their line, or nothing is |
| `RespReader.Reader.ProcessBulkItem` | deps/hiredis/read.c:249-300 | a string is taken only whole; a negative length is nil |
| `RespReader.Reader.ProcessMultiBulkItem` | deps/hiredis/read.c:302-365 | an array is entered, is nil or is complete by its count; at the ninth level it is refused |
| `RespReader.Reader.ReadType` | deps/hiredis/read.c:367-395 | the type byte is taken once, and an unknown one is an error |
| `RespReader.Reader.ProcessItem` | deps/hiredis/read.c:367-414 | one item moves the reader along the run on its input, and asks for more exactly when the run does |
| `RespReader.Reader.Feed` | deps/hiredis/read.c:445-475 | bytes are appended, also when an empty buffer with too much room is replaced; after an error they are refused |
| `RespReader.Reader.GetReply` | deps/hiredis/read.c:477-525 | the next reply of the run, or none yet, or the error; trimming the buffer is not observable |
| `RespReader.Drain` | deps/hiredis/read.c:477-525 | taking replies until there are none gives those of the run and leaves its state |
| `RespReader.ReadAll` | deps/hiredis/read.c:445-525 | for every way of cutting the input into pieces, with the replies taken after each, the same replies come and the same error ends them |
| `RespFormat.CountDigits` | deps/hiredis/hiredis.c:193-203 | the number of decimal digits |
| `RespFormat.BulkLen` | deps/hiredis/hiredis.c:206-208 | the length of an encoded argument |
| `RespFormat.Ll2Str` | deps/hiredis/sds.c:429-458 | the buffer holds the decimal form of any 64-bit number but the smallest |
| `RespFormat.WriteDigits` | deps/hiredis/sds.c:436-441 | the digits are written in reverse order, all of them |
| `RespFormat.Reverse` | deps/hiredis/sds.c:448-456 | the buffer is reversed in place |
| `RespFormat.NumberDec` | deps/hiredis/read.c:148-173 | a number that was written is read back |
| `RespFormat.RunEncode` | deps/hiredis/read.c:215-365 | reading the encoding of a reply completes exactly that reply and takes exactly its bytes |
| `RespFormat.EncodeThenParse` | deps/hiredis/read.c:302-309 | the encoding of a reply parses back to it if it has at most eight levels of arrays, and is refused otherwise |
| `RespFormat.TotalLength` | deps/hiredis/hiredis.c:490-495 | the length computed before formatting |
| `RespFormat.FormatCommandArgv` | deps/hiredis/hiredis.c:530-566 | the command is the encoding of its arguments, and the length computed before is its length |
| `RespFormat.FormatSdsCommandArgv` | deps/hiredis/hiredis.c:477-519 | the command with lengths printed as 32-bit numbers; it is returned exactly when its length is the one computed before, and is the encoding of the arguments when all are shorter than 4 GiB |
| `RespFormat.SdsExact` | deps/hiredis/hiredis.c:509-511 | the 32-bit lengths are right exactly when every argument is shorter than 4 GiB |
| `RespFormat.CommandThenParse` | deps/hiredis/hiredis.c:477-566 | a formatted command parses back to its argument list |
| `AsyncQueue.CallbackList.Push` | deps/hiredis/async.c:227-247 | the callback joins the end of the linked list |
| `AsyncQueue.CallbackList.Shift` | deps/hiredis/async.c:249-263 | the first callback leaves the list, none exactly when it is empty |
| `AsyncQueue.AsyncContext.Command` | deps/hiredis/async.c:584-649 | a command is accepted exactly when neither disconnecting nor freeing; its callback joins the list, and there is output to write |
| `AsyncQueue.AsyncContext.RunActions` | deps/hiredis/async.c:265-272 | what a callback function does: what it submits is accepted exactly until it or someone before asked to leave, and flags are raised exactly by what it asks for |
| `AsyncQueue.AsyncContext.RunCallback` | deps/hiredis/async.c:265-272 | the function runs between raising and clearing the flag that tells so |
| `AsyncQueue.AsyncContext.HandleNext` | deps/hiredis/async.c:249-272 | the callback that waits first is settled with the reply and called once if it has a function; none exactly when nobody waits |
| `AsyncQueue.AsyncContext.DoFree` | deps/hiredis/async.c:275-317 | the drain ends with every accepted command settled, in order, the pending ones without reply |
| `AsyncQueue.AsyncContext.DoDisconnect` | deps/hiredis/async.c:331-350 | the assertion that a clean disconnect finds no pending callback holds |
| `AsyncQueue.AsyncContext.AsyncFree` | deps/hiredis/async.c:323-328 | outside callbacks everything is settled at once |
| `AsyncQueue.AsyncContext.AsyncDisconnect` | deps/hiredis/async.c:358-363 | outside callbacks the connection ends at once exactly when nothing is pending |
| `AsyncQueue.AsyncContext.OnFailure` | deps/hiredis/async.c:517-536 | a failed read settles everything, the pending callbacks without reply |
| `AsyncQueue.AsyncContext.AfterReplies` | deps/hiredis/async.c:419-427 | when there are no more replies the context ends exactly by a fault of the reader or by a disconnect that has waited for replies and output |
| `AsyncQueue.AsyncContext.HandleReply` | deps/hiredis/async.c:440-483 | one reply goes to the callback that waits first; a free it asks for ends the context; a reply nobody waits for ends it if it is an error and fails an assertion otherwise |
| `AsyncQueue.AsyncContext.ProcessCallbacks` | deps/hiredis/async.c:412-490 | the loop is the recursive definition of what replies, faults, frees and disconnects make of a context |
| `AsyncQueue.ProcessMeans` | deps/hiredis/async.c:412-490 | the k-th reply goes to the k-th callback; the context is freed only by a fault, an unsolicited error, a free or a completed disconnect, and aborted exactly by an unsolicited reply that is no error |
| `AsyncQueue.AsyncContext.Step` | deps/hiredis/async.c:227-490 | an event has its effect unless the context has ended, and then none |
| `AsyncQueue.Serve` | deps/hiredis/async.c:227-490 | a run from the start through any events, each with its effect, whatever callbacks do: accepted commands are settled in order, once each, the k-th reply with the k-th of them, those without reply last; nothing waits once the context is freed |
| `HashTable.NextPower` | deps/hiredis/dict.c:306-315 | the least power of two from four on that holds the size |
| `HashTable.Dict.Search` | deps/hiredis/dict.c:243-256 | walking one bucket finds the entry of the key exactly if there is one |
| `HashTable.Dict.Find` | deps/hiredis/dict.c:243-256 | dictFind agrees with the finite map |
| `HashTable.Dict.MoveEntry` | deps/hiredis/dict.c:107-122 | one entry moves from the front of its old bucket to its new one |
| `HashTable.Dict.Rehash` | deps/hiredis/dict.c:107-125 | every entry ends up in the bucket of its masked hash in the new table, keys and values unchanged |
| `HashTable.Dict.Expand` | deps/hiredis/dict.c:88-132 | the table grows to a power of two, or refuses a size below what is used, and stands for the same map |
| `HashTable.Dict.KeyIndex` | deps/hiredis/dict.c:320-337 | the bucket of a new key after growth, none for a key that is present |
| `HashTable.Dict.Add` | deps/hiredis/dict.c:135-154 | adds to the map exactly if the key is not there |
| `HashTable.Dict.Replace` | deps/hiredis/dict.c:160-179 | sets the key in the map and tells whether it was new |
| `HashTable.Dict.Delete` | deps/hiredis/dict.c:182-210 | removes the key from the map, and only its entry from its bucket |
| `HashTable.Iterator.constructor` | deps/hiredis/dict.c:258-266 | all entries are still to be visited |
| `HashTable.Iterator.Next` | deps/hiredis/dict.c:268-286 | hands out the next entry still to be visited, none exactly when there is none |
| `HashTable.EachKeyOnce` | deps/hiredis/dict.c:268-286 | read bucket by bucket the table has every key of the map exactly once |
| `HashTable.FreeCurrent` | deps/hiredis/dict.c:268-286 | deleting the entry just handed out leaves what is still to be visited as it was |
| `HashTable.VisitAll` | deps/hiredis/dict.c:268-286 | a full iteration that deletes some of the entries it is handed visits every key exactly once and deletes exactly those |
| `Sds.CatRepr` | deps/hiredis/sds.c:856-879 | the loop appends the quoted form |
| `Sds.JoinSds` | deps/hiredis/sds.c:1078-1087 | the strings with the separator between them |
| `Sds.SplitLen` | deps/hiredis/sds.c:793-840 | the loop finds the pieces between separators |
| `Sds.JoinSplit` | deps/hiredis/sds.c:793-840 | joining the pieces with the separator restores any non-empty input |
| `Sds.SplitIsSeparatorFree` | deps/hiredis/sds.c:793-840 | no piece holds the separator |
| `Sds.SplitJoin` | deps/hiredis/sds.c:793-879 | splitting undoes joining exactly when no separator starts in a piece before the one that follows it and none in the last piece |
| `Sds.JoinNotUndone` | deps/hiredis/sds.c:793-879 | a list of pieces that splitting does not give back |
| `Sds.NextToken` | deps/hiredis/sds.c:937-1018 | one token: bare, quoted or single-quoted text up to a blank or the end, or an error |
| `Sds.SplitArgs` | deps/hiredis/sds.c:931-1039 | the loop gives the tokens of the line, or the error |
| `Sds.QuotedArgsRoundTrip` | deps/hiredis/sds.c:920-925 | quoting every string, joining with blanks and splitting gives the list back, for all byte strings |
| `Sds.QuoteAndSplit` | deps/hiredis/sds.c:920-925 | the same for the three operations as they run |
| `Golomb.Encoder.EncodeBit` | deps/golombset/golombset.h:39-51 | one more bit is written, exactly if there is room, and no byte past it |
| `Golomb.Encoder.EncodeBits` | deps/golombset/golombset.h:53-63 | the fixed-width code is written exactly if there is room |
| `Golomb.Encoder.EncodeValue` | deps/golombset/golombset.h:89-100 | the unary and fixed-width code is written exactly if there is room |
| `Golomb.Encoder.EncodeKeys` | deps/golombset/golombset.h:123-134 | the codes of the gaps are written exactly if there is room |
| `Golomb.Encode` | deps/golombset/golombset.h:123-138 | succeeds exactly when the buffer holds the code, reports its bytes, leaves zero bits after it and nothing else touched |
| `Golomb.Decoder.DecodeBit` | deps/golombset/golombset.h:65-73 | the next bit, none exactly at the end |
| `Golomb.Decoder.DecodeValue` | deps/golombset/golombset.h:102-121 | the value of the code in front, in 64-bit arithmetic, none exactly when there is no whole code |
| `Golomb.Decode` | deps/golombset/golombset.h:140-160 | the keys coded in the buffer, or failure when they do not fit |
| `Golomb.ZerosHoldNoValue` | deps/golombset/golombset.h:102-121 | padding holds no value |
| `Golomb.RoundTrip` | deps/golombset/golombset.h:123-160 | the code of an increasing list, with any padding, decodes to exactly the list |
| `Golomb.EncodeThenDecode` | deps/golombset/golombset.h:123-160 | the same for the two operations as they run |

## Left out

- Sockets, the event loop, timers, signals, start-up, configuration, OCSP: plumbing over libraries not shown.
- TLS, QUIC and cipher calls: foreign code; keys are opaque values.
- YAML parsing and printing of tickets: lossless in the model of the shared store.
- The contents of request and response heads: a head is a text the parser takes, with the fields that steer framing.
- Http1.Connection.HandleHead: CONNECT on a host that cannot stream (the 405 answer) and upgrades to HTTP/2 are not
  modelled; a failed allocation while a tunnel starts is not modelled.
- Http1.Connection.HandleFragment: handlers answer in later steps, not inside the call that submits the request.
- Http1.Connection.OnRead: once part of a head has come, the parser of the source looks for the empty line before it looks
  for errors, so that a bad head in pieces may be refused later than here.
- Http1.Connection.SendNow: response bytes are recorded as interim, head and data; their text is in `Chunked.dfy` only as
  far as chunked framing goes.
- Http1.Connection.RejectRequest: a handler that has not started to respond does not respond after the connection has
  answered for it.
- HTTP/1 timeouts are one event that closes the connection; their timing is not modelled.
- Ticket files: they bypass `update_tickets`. The Redis variant of the shared store has no compare-and-swap and is not
  modelled.
- TicketStore.SharedKeysSafe: answers of the store other than found and not found are not modelled, and the sort of a
  value read back keeps only the order by start time, not the tie-break by name.
- Tickets.TicketVector.Update: name and key bytes are one first byte and opaque rest; 64-bit overflow of times is not
  modelled.
- QuicKeys.ReturnsFreshKeys: the generation counter does not wrap around.
- Neverbleed.AsyncNb.OnReadReady: synchronous transactions are not modelled; they do not account for a transaction that
  is being written.
- Neverbleed.Daemon.Take: a request that cannot be parsed, at which the process closes its socket, is not modelled.
- AsyncQueue.AsyncContext.ProcessCallbacks: SUBSCRIBE, UNSUBSCRIBE and MONITOR, connect and disconnect callbacks are not
  modelled.
- RespReader.Reader.MoveToNextTask: an array is put into its parent when its last element is there, not when it is
  created; allocation failures and counts beyond the range of `int` are not modelled.
- RespFormat.Ll2Str: the smallest 64-bit number is excluded.
- `redisvFormatCommand`, `sdscatfmt` as a format interpreter: varargs and libc formatting.
- HashTable.Dict.Add: the address of a new entry is an argument; key and value destructors are not modelled.
- Golomb.Decode: an empty buffer is excluded, since the source reads its first byte.
- Huffman.DecodeHuffman: the soft errors for header characters are not modelled, the flags they use are in the table.
- `vhttp_req_getenv` and `vhttp_req_unsetenv`, the QUIC forwarded-header codec, klib, header-size estimates, WebSocket,
  the HTTP client, `deps/hiredis/net.c`: easy or thin wrappers.
