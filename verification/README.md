# WarfaceBot: a model of its engines

WarfaceBot is an XMPP client for a shooter. Under its many hand-written queries lie a few engines on
which everything rests. This project models them in Dafny and proves what they are for.

| file | engine |
|---|---|
| CStrings.dfy | C strings, `strstr`, and the tag readers every other engine uses |
| Base64.dfy, XmlSerializer.dfy, Framing.dfy, WfQuery.dfy | the wire: base64, entity escaping in place, frames over a fragmenting stream, compression of queries |
| QueryCache.dfy | chunked downloads, their file on disk, and reading it back |
| CallbackTable.dfy, IdHandler.dfy, QueryHandler.dfy | the two tables of callbacks that wait for answers and queries |
| Rings.dfy, StartTls.dfy | the two message queues between threads, and the handoff between reader and dispatcher around STARTTLS |
| Gameroom.dfy, GameroomText.dfy | the parts of a game room, kept at their highest revision, and the text they are read from |
| LinkedList.dfy, Missions.dfy | the list on the heap, and the loop that names missions |
| Quickplay.dfy | matchmaking |
| WfQuerySamples.dfy, QueryCacheSamples.dfy, GameroomSamples.dfy | literal messages on which a promise of these engines fails |
| GameroomMessage.dfy | a message with all parts of a room |

How it is modelled:

- Strings are sequences of characters without the terminating NUL. Where the program would read past a
  string, use a null pointer or fail an assertion, the model has an outcome for it.
- Loops over buffers, arrays, lists and fields are methods with invariants on arrays, heap nodes and
  class fields. Each is proved against a function on values, and the theorems are about that function.
- Concurrency is a state machine with one step per statement and a program counter per thread; the
  theorems quantify over every interleaving.
- A callback is an arbitrary finite list of what it does, so that re-entering is covered.
- Numbers are unbounded; every C width that matters is written out.

What the proofs turned up, each with a lemma below:

- In unprotected mode the reader takes any piece that ends in '>' for a whole message, so how the
  transport cuts the bytes changes what is read (`Framing.FragmentationMatters`).
- Between the state change to TLS_INIT and the end of the handshake the reader reads at most one message,
  and only if it was inside a read when the state changed. The session goes on exactly when that message is
  the server's `proceed` (`StartTls.HandoffFate`); otherwise it stops for good (`StartTls.HandoffHangs`).
  One message sent right behind the offer is enough: either it is the one read (`StartTls.OneMessageTooMany`),
  or it is read a moment earlier and the reader then waits with the answer unread (`StartTls.MissedUnread`).
- Compression hides an error element inside a query, which changes the type that is read from a result
  (`WfQuerySamples.ErrorHidden`, exactly when: `WfQuery.CompressionKeepsType`), and a quote in the name of the first
  tag changes the name a query is dispatched by (`WfQuerySamples.QuotedNameLost`, exactly when, for messages with a
  plain head: `WfQuery.CompressionKeepsTagName`).
- The cached copy differs from the one in memory when a download that broke off is started again, or a chunk
  restarts at 0: the file stays open and gets both (`QueryCacheSamples.CopiesDisagree`, exactly when:
  `QueryCache.CachedCopyAgrees`).
- After an interrupted download the next start takes over the hash of the copy without its elements, so that
  the next request announces as cached what was never loaded (`QueryCache.InterruptedDownload`).
- A core part of a room that lacks its players does not commute with a lower one that has some
  (`GameroomSamples.MissingPlayersDoNotCommute`), and a core without a room name behind one with a name makes
  the program use a null pointer (`GameroomSamples.NamelessCoreEndsProgram`); exactly when two cores can be
  exchanged: `Gameroom.CoresCommute`.
- An attribute is looked for by the end of its name: in a core that gives `min_ready_players` before `players`,
  the first is taken for the number of players (`GameroomText.MinimumForPlayers`).
- A list callback that removes the next element makes the loop read a freed node (`LinkedList.SuccessorFreed`,
  exactly when: `LinkedList.WalkVisitsAll`).
- The identifiers overrun their 12 characters from the hundred millionth on (`IdHandler.IdFits`).

## Model

| member | source | states |
|---|---|---|
| `CStrings.GetInfoFirstScan` | src/tools/get_info.c:56-94 | The scan over several stop characters (one search each, keeping the nearest) returns the text up to the nearest of them, for every list of stop characters |
| `CStrings.GetInfoOf` | src/tools/get_info.c:26-54 | A tag reader returns exactly the text between the first opening pattern and the first closing pattern behind it |
| `CStrings.GetInfoSplits` | src/tools/get_info.c:26-54 | Whatever the reader returns stands in the input right behind the first opening pattern and right before a closing one |
| `CStrings.StrtolOfDec` | src/tools/get_info.c:96-122 | A printed non-negative 64-bit number is read back exactly, whatever non-digit follows it |
| `CStrings.StrtolReads` | src/tools/get_info.c:96-122 | Signs are read, and a number that does not fit 64 bits is cut to the nearest one that does |
| `CStrings.SpaceSkips` | src/tools/get_info.c:96-122 | Blanks in front of a number make no difference |
| `Base64.GatherSpread` | src/tools/base64.c:29-41 | Putting the four 6-bit digits of three bytes together again gives the bytes, in quotients and remainders |
| `Base64.SextetWords` | src/tools/base64.c:36-37 | On 8-bit words, the masks, shifts and ors with which the encoder computes its table indexes are those quotients and remainders |
| `Base64.ByteWords` | src/tools/base64.c:96-102 | On 6-bit values kept in a char, the shifts and ors with which the decoder computes its bytes are those quotients and remainders |
| `Base64.EncodedLength` | src/tools/base64.c:26-63 | The encoding of n bytes has 4*ceil(n/3) characters, so it and the terminator fit the allocated buffer |
| `Base64.EncodeIsRfc4648` | src/tools/base64.c:21-66 | The encoding is the one of section 4 of RFC 4648, stated independently on 24-bit groups |
| `Base64.Base64Encode` | src/tools/base64.c:21-66 | The loop writing through the moving pointer leaves the encoding and its terminator in the buffer, within its bounds |
| `Base64.RoundTrip` | src/tools/base64.c:21-111 | For every byte sequence, decoding the encoding gives the bytes back, with the length of the input |
| `Base64.PaddedThenText` | src/tools/base64.c:68-111 | A padded encoding followed by any text decodes to the bytes |
| `Base64.UnpaddedThenName` | src/tools/base64.c:68-111 | An unpadded encoding of 3k bytes followed by a quote, a blank and an attribute name up to '=' decodes to these bytes and ten more, which with the terminator exactly fill the 3k+11 bytes allocated for an input length of 4k+1 |
| `Base64.Base64Decode` | src/tools/base64.c:68-111 | The decoder stays inside input and buffer exactly when the input has a '=' or a length divisible by 4 and the output fits its precomputed size, and then leaves the decoded bytes and their number |
| `Base64.EncodingIsQuotable` | src/tools/base64.c:23-63 | An encoding contains neither a single quote nor a blank nor NUL, so it can stand in a quoted attribute of a C string |
| `XmlSerializer.EntitiesPrefixFree` | src/xml/serializer.c:75-117 | No entity is the beginning of another, so reading them back is unambiguous |
| `XmlSerializer.RoundTrip` | src/xml/serializer.c:22-174 | Unescaping an escaped string gives it back, for every string |
| `XmlSerializer.EscapeInjective` | src/xml/serializer.c:22-122 | Different strings have different escapes |
| `XmlSerializer.EscapedIsInert` | src/xml/serializer.c:71-118 | An escaped string contains no angle bracket and no quote of either kind |
| `XmlSerializer.EscapeWrites` | src/xml/serializer.c:71-118 | Each of the five special characters is written as its own entity, wherever it stands |
| `XmlSerializer.EscapeKeeps` | src/xml/serializer.c:71-118 | Every other character is written as it is |
| `XmlSerializer.UnescapeReads` | src/xml/serializer.c:145-165 | Each of the five entities is read as its own character |
| `XmlSerializer.UnescapeKeeps` | src/xml/serializer.c:145-165 | A character that starts none of the five entities, an ampersand included, is kept as it is |
| `XmlSerializer.OutSizeExact` | src/xml/serializer.c:24-56 | The size computed from the five counters is exactly the length of the escaped string |
| `XmlSerializer.WriteBackward` | src/xml/serializer.c:69-118 | Writing from the end, in place or not, produces the escaped string and never overwrites a character still to be read |
| `XmlSerializer.SerializeInplace` | src/xml/serializer.c:60-135 | The in-place form leaves the same text in the grown block as the copying form |
| `XmlSerializer.Serialize` | src/xml/serializer.c:22-127 | The copying form returns a fresh block with the escaped string and its terminator |
| `XmlSerializer.ReadForward` | src/xml/serializer.c:137-168 | Contracting from the front, in place or not, gives the unescaped string and never overwrites a character still to be read |
| `XmlSerializer.Deserialize` | src/xml/serializer.c:137-179 | The copying form returns the unescaped string |
| `XmlSerializer.DeserializeInplace` | src/xml/serializer.c:137-187 | The in-place form leaves the same text as the copying form |
| `XmlSerializer.InplaceRoundTrip` | src/xml/serializer.c:129-187 | Escaping and unescaping one block in place gives the text back |
| `Framing.Connection.ReadExactly` | src/stream/recv.c:64-101 | Either receiving loop gets exactly the bytes asked for, whatever pieces they come in, and fails only when the stream ends first |
| `Framing.Connection.StreamRead` | src/stream/recv.c:59-194 | A protected read depends on the bytes of the stream alone, never on how they were cut: the message, the key it leaves, the acknowledgements it sends and what stays unread |
| `Framing.Connection.StreamSend` | src/stream/send.c:84-101 | Sending appends one frame: the header with the length and the mode, then the possibly encrypted message |
| `Framing.TranscriptReadsBack` | src/stream/recv.c:59-181 | Any list of sendable messages, with key changes anywhere between them, is read back exactly and in order by that many reads, with one acknowledgement per key and nothing left over |
| `Framing.FrameBytes` | src/stream/def.h:28-46 | The bytes of a plain frame, an encrypted frame, the header of a key frame and an acknowledgement |
| `Framing.KeyTaken` | src/stream/recv.c:160-181 | Behind a key frame with a printed number below 2^31, whatever follows is read under the key made of the old key and that number, and the key is acknowledged |
| `Framing.EndsInHeader` | src/stream/recv.c:59-76 | A stream that ends inside a header is read to its end and nothing is returned |
| `Framing.SurvivesFraming` | src/stream/recv.c:78-101 | A message survives framing if and only if it is not empty, its length is below 2^32-1, and, once encryption is on, the cipher inverts it, which is assumed below 2^31 only |
| `Framing.Connection.ReadTimes` | src/stream/recv.c:48-194 | Repeated reads give the sequence of outcomes that the bytes determine |
| `Framing.Connection.ReadUnprotected` | src/stream/recv.c:103-131 | In unprotected mode every piece fits in the space left of the doubling buffer, and at least 128 zero bytes stay behind the result |
| `Framing.UnprotectedWhole` | src/stream/recv.c:109-130 | An unprotected read returns the whole of the pieces if and only if no piece but the last ends in '>' or NUL |
| `Framing.EndsWith` | src/stream/recv.c:121-130 | A piece ends a message when its last byte is '>' or NUL |
| `Framing.FragmentationMatters` | src/stream/recv.c:109-130 | In unprotected mode the same bytes cut differently can be read differently |
| `WfQuery.RequoteInPlace` | src/xmpp_wf/tools.c:66-70 | The loop replaces every double quote by a single one and nothing else |
| `WfQuery.Inflate` | src/tools/zlibb64.c:38-57 | Decoding and inflating returns the text with its terminator inside a block of the announced size, or nothing |
| `WfQuery.GetQueryContent` | src/xmpp_wf/tools.c:32-73 | The content reader returns the plain content, the inflated content with quotes replaced, nothing, or a fault, exactly as its input determines |
| `WfQuery.RequoteIs` | src/xmpp_wf/tools.c:66-70 | Double quotes become single ones, and every other character is kept |
| `WfQuery.PlainContent` | src/xmpp_wf/tools.c:37-40 | The content of a message without compressed data is the text between the namespace and the end of the query |
| `WfQuery.NoSizeInside` | src/xmpp_wf/tools.c:148-162 | The compressed attribute never contains the name of the size attribute |
| `WfQuery.PackedContent` | src/xmpp_wf/tools.c:144-162 | Reading the content of a packed query gives the original query content with quotes replaced |
| `WfQuery.CompressionPreservesContent` | src/xmpp_wf/tools.c:32-172 | For every query, the content read from the compressed form is the content of the original with double quotes replaced when it was packed, and unchanged when it was passed through |
| `WfQuery.PackedWhen` | src/xmpp_wf/tools.c:75-141 | A message is packed if and only if it has at least 512 characters, is not a query of one empty element, and its pieces are all found, the first tag not being a data tag |
| `WfQuery.PackedText` | src/xmpp_wf/tools.c:76-172 | The packed message character by character: the text up to the namespace, a data tag with name, encoded content, size and the arguments of the first tag (without a final '/', and dropped beyond 512 characters), the end of the query and the original text behind it |
| `WfQuery.PackedKeepsAttributes` | src/xmpp_wf/tools.c:113-162 | The data tag gives every attribute of the first tag of the query, other than the three added ones, as the original does |
| `WfQuery.FirstTagKept` | src/xmpp_wf/tools.c:113-162 | Compression keeps the first tag of the message |
| `WfQuery.FirstTagReads` | src/xmpp/tools.c:25-45 | The first tag is the text between the first '<' and the next '>' |
| `WfQuery.IdReads` | src/xmpp/tools.c:25-37 | The id is the first one in the first tag |
| `WfQuery.TypeReads` | src/xmpp/tools.c:39-67 | A result is one without an error element anywhere, an error says so or is a result with one, and everything else is a get |
| `WfQuery.TagNameReads` | src/xmpp/tools.c:69-103 | The name of a query without a data tag is that of the first tag behind the query tag |
| `WfQuery.OtherNameReads` | src/xmpp/tools.c:69-103 | Without a query tag, or outside an iq, the name is that of the first tag there |
| `WfQuery.DataNameReads` | src/xmpp/tools.c:69-103 | The name of a query with a data tag is that tag's query_name |
| `WfQuery.PackedShowsError` | src/xmpp_wf/tools.c:148-162 | An error element shows in the packed message if and only if it stands outside the compressed content |
| `WfQuery.CompressionKeepsId` | src/xmpp/tools.c:25-37 | The message id read from the compressed form is that of the original |
| `WfQuery.CompressionKeepsType` | src/xmpp/tools.c:39-67 | The message type agrees on both forms if and only if the message is not a packed result whose error element stands only inside the content |
| `WfQuerySamples.ErrorHidden` | src/xmpp/tools.c:39-67 | A result of more than 512 characters with an error element in its content reads as an error before compression and as a result after |
| `WfQuery.CompressionKeepsTagName` | src/xmpp/tools.c:69-103 | For a message in which the query tag is the last one open at the namespace, the query tag name agrees on both forms if and only if it holds no quote, or, with a data tag behind the namespace, that tag's first query_name attribute is the name up to its first quote |
| `WfQuerySamples.QuotedNameLost` | src/xmpp/tools.c:69-103 | A query whose first tag has a quote in its name is dispatched by another name after compression |
| `QueryCache.NodePrefix` | src/querycache.c:115-145 | Where an element ends depends on the text of the element alone, not on what follows it |
| `QueryCache.SingleIs` | src/querycache.c:115-145 | An empty element ends behind its "/>", whatever follows |
| `QueryCache.ContainerIs` | src/querycache.c:115-145 | An element with a body ends behind the first closing tag of its own name, whatever follows |
| `QueryCache.CutItems` | src/querycache.c:96-160 | A text laid out as elements with anything but tags between them is cut into exactly those elements; while writing, into the first to-from of them |
| `QueryCache.CutGivesElements` | src/querycache.c:110-148 | Whatever is cut from any text is an element that would be cut out again alone |
| `QueryCache.QueryCacheFile.Parse` | src/querycache.c:96-160 | The loop hands the parser the elements cut from the text, and appends their lines to the file exactly when it writes and the file is open |
| `QueryCache.QueryCacheFile.Update` | src/querycache.c:162-224 | One chunk: opening, resetting, hash, parsing and closing, on all fields and the file on disk |
| `QueryCache.QueryCacheFile.Load` | src/querycache.c:226-289 | Loading leaves the hash and the elements that the file on disk determines |
| `QueryCache.LoadsNothing` | src/querycache.c:96-113 | Loading takes over the hash of the start tag and no element if and only if nothing to cut is found behind that tag |
| `QueryCache.NothingToLoad` | src/querycache.c:226-260 | Without caching, a file, or a start tag that ends, loading changes nothing and is no fault |
| `QueryCache.HeaderText` | src/querycache.c:188-194 | The text that opens a file, also for numbers below 0 and without a hash |
| `QueryCache.InterruptedDownload` | src/querycache.c:110-113 | When a run of the program ends with a file open, whatever part of it reached the disk from its start tag on, the next start takes over the hash of the chunk that opened it and no element if and only if that part contains no end tag of the query |
| `QueryCache.QueryCacheFile.Answer` | src/xmpp_wf/get/xmpp_iq_querycache.c:50-113 | What an answer does to the cache, and whether another chunk is requested, the caller is told, or the request is dropped |
| `QueryCache.QueryCacheFile.Answers` | src/xmpp_wf/get/xmpp_iq_querycache.c:50-113 | Any sequence of answers leaves the state of the specified session in the fields |
| `QueryCache.AnswerAsks` | src/xmpp_wf/get/xmpp_iq_querycache.c:67-111 | By the text of an answer: code 1 tells the caller and leaves the cache as it is, code 2 asks for the chunk that starts at its `to`, code 3 tells the caller, any other code drops the request |
| `QueryCache.FromIs` | src/xmpp_wf/get/xmpp_iq_querycache.c:66-69 | A chunk starts at the number its first `from` attribute prints |
| `QueryCache.ChunksAreContiguous` | src/xmpp_wf/get/xmpp_iq_querycache.c:81-96 | In any session the requests ask for exactly the ends of the chunks with code 2, and against a server that answers a request from n with a chunk from n every chunk starts where the one before it ended |
| `QueryCache.SessionFile` | src/querycache.c:162-224 | In any run of the program, whatever answers come and however many are dropped, the open file holds the start tag of the chunk that opened it and a line for each element since, and the last completed file that and the end tag |
| `QueryCache.FilesArePieces` | src/querycache.c:162-224 | The chunks of an open or just completed file are the last ones the program took up, and those of a completed file one uninterrupted piece of them |
| `QueryCache.DownloadEnds` | src/querycache.c:162-224 | After any MORE...MORE END run of chunks from 0, with any dropped answers in between, the file holds exactly these chunks |
| `QueryCache.CacheRoundTrip` | src/querycache.c:96-289 | After any run of the program, loading the last file it completed hands the parser exactly the elements its chunks handed it, in order, and restores the hash of the first of them |
| `QueryCache.KeptIsAll` | src/querycache.c:199-202 | The container keeps every element of a download if and only if no chunk that starts at 0 comes after an element |
| `QueryCache.CachedCopyAgrees` | src/xmpp_wf/get/xmpp_iq_querycache.c:71-106 | When a file is completed, in any run, the loaded container equals the one in memory if and only if no chunk of the file after its first elements restarts at 0, and the hashes agree if and only if its last chunk carries the first one's |
| `QueryCacheSamples.CopiesDisagree` | src/xmpp_wf/get/xmpp_iq_querycache.c:53-106 | A MORE answer, one that does not come, and an END answer from 0 with another hash leave one element and the second hash in memory, two elements and the first hash on disk, in a file whose text is given |
| `CallbackTable.PlacedKeeps` | src/xmpp/id_handler.c:72-92 | Registering writes one free slot; doubling the table neither loses nor moves a live entry, and happens exactly when every slot is live |
| `CallbackTable.RemovedIsGone` | src/xmpp/query_handler.c:57-71 | After a removal no entry matches the name, those that did are free, and every other entry is as it was |
| `CallbackTable.TimeoutProgress` | src/xmpp/id_handler.c:132-146 | A timeout and whatever its callback registers or removes leave fewer expired entries ahead of the scan, which is why the scan ends although the table may double under it |
| `CallbackTable.OneShotAtMostOnce` | src/xmpp/id_handler.c:64-152 | Over every run of registrations, removals and scans, a one-shot registration is called at most once, by answer or timeout, and is at any time either live, called, or removed, and only one of these |
| `CallbackTable.OwnArguments` | src/xmpp/id_handler.c:116-143 | Every call in every run passes the callback and arguments of its own registration, and a permanent entry is never timed out |
| `CallbackTable.ScanCalls` | src/xmpp/id_handler.c:97-152 | A scan calls only timeouts of entries more than 120 seconds old and then, exactly when it reports the message handled, one entry registered under the message's key |
| `CallbackTable.ScanGivesUp` | src/xmpp/id_handler.c:106-146 | After any run, a scan that ends at a place gives up every one-shot entry before it that was registered more than 120 seconds earlier and no other: each gets exactly one timeout call and is gone, unless a callback removed it; a scan that handles nothing passes the whole table, and one that handles the message ends at the entry it answers |
| `CallbackTable.WaitingIsAnswered` | src/xmpp/id_handler.c:106-129 | A message is handled if an entry waits for its key when the scan starts, whatever the callbacks of timed out entries register |
| `CallbackTable.AbortsWhenFull` | src/xmpp/query_handler.c:36-55 | In no run does the growing table fail the overflow assertion; the other one fails it in a registration exactly when every entry is live |
| `IdHandler.IdHandlers.constructor` | src/xmpp/id_handler.c:52-62 | The table starts with 64 free entries |
| `IdHandler.IdHandlers.Double` | src/xmpp/id_handler.c:77-86 | The array doubles, the old entries keep their places, and the rest is free |
| `IdHandler.IdHandlers.Register` | src/xmpp/id_handler.c:64-95 | The array after a registration is the specified table; without a callback nothing changes |
| `IdHandler.IdHandlers.Handle` | src/xmpp/id_handler.c:97-152 | The loop over the array, with callbacks that register and reallocate it, ends and does exactly what the specified scan does; an absent id is not looked up |
| `IdHandler.WaitingIsHandled` | src/xmpp/id_handler.c:97-129 | A message is handled if an entry waits for its id, and one without id is not looked up |
| `IdHandler.Counter.GenerateUniqueId` | src/xmpp/id_handler.c:154-161 | The counter goes up modulo 2^32 and its text is returned |
| `IdHandler.IdFits` | src/xmpp/id_handler.c:154-161 | The identifier and its terminator fit the 12 characters of its type if and only if the counter is below 10^8 or prints as a negative number of at most seven digits |
| `IdHandler.IdsDistinct` | src/xmpp/id_handler.c:154-161 | Different counter values below 2^32 print different identifiers |
| `IdHandler.IdTextIs` | src/xmpp/id_handler.c:154-161 | Below 10^8 an identifier is "uid" and the eight digits of its number |
| `IdHandler.IdsDoNotCollide` | src/xmpp/id_handler.c:110-114 | An entry registered under one generated identifier matches another one if and only if they are the same, for counters below 10^8 |
| `IdHandler.MatchesTwelve` | src/xmpp/id_handler.c:110-114 | An entry waits for every identifier that agrees with its own in the first twelve characters |
| `QueryHandler.QueryHandlers.Register` | src/xmpp/query_handler.c:36-55 | The fixed array after a registration is the specified table; a full table is the overflow assertion |
| `QueryHandler.QueryHandlers.Remove` | src/xmpp/query_handler.c:57-71 | Every entry with the name is freed and no other; an empty name removes nothing |
| `QueryHandler.MatchesThirtyTwo` | src/xmpp/query_handler.c:80-84 | A handler takes every query whose name agrees with its own in the first thirty-two characters |
| `QueryHandler.QueryHandlers.Handle` | src/xmpp/query_handler.c:73-103 | The loop does exactly what the specified scan does, also when callbacks register and remove |
| `QueryHandler.WaitingIsHandled` | src/xmpp/query_handler.c:73-91 | A query is handled if an entry waits for its name and none before it is late; an absent or empty name never is |
| `Rings.NoOverwrite` | src/threads/thread_sendstream.c:35-46 | In every interleaving the slot a producer writes to is empty |
| `Rings.DeliveredInOrder` | src/threads/thread_sendstream.c:35-73 | In every interleaving the messages taken out are, in order, the first ones put in; what each thread was called with or returned is what the logs say, except a message on its way or in its hands |
| `Rings.NeverReturnsNull` | src/threads/thread_sendstream.c:59-72 | The assertion before the return holds in every run: a consumer returns a message, never NULL |
| `Rings.SixteenCredits` | src/threads/thread_sendstream.c:75-83 | The tokens of both semaphores and the threads holding one always add up to 16 |
| `Rings.SendQueueIsFifo` | src/threads/thread_sendstream.c:35-73 | With any number of producers the sending thread gets the messages in the order of the mutex, each once and never NULL, and at most 17 are underway |
| `Rings.ReceiveQueueIsFifo` | src/threads/thread_readstream.c:41-77 | With any number of consumers, the messages are taken, in the order of their mutex, as the reading thread posted them, and each consumer returns what it took |
| `Rings.WaitsOnlyForRoomOrMessages` | src/threads/thread_readstream.c:41-77 | When no thread can go on, producers wait only on a full ring and consumers only on an empty one, so the two sides never wait for each other |
| `StartTls.TlsInitAlone` | src/xmpp/get/xmpp_starttls.c:49-53 | In every run the assertion before tls_init holds, and while tls_init is at work the state is TLS_INIT and the reader is neither inside stream_read nor about to enter it |
| `StartTls.OneReadPerHandoff` | src/threads/thread_readstream.c:115-149 | From the moment the state is TLS_INIT until it is RUN or DEAD, the reader reads at most one message |
| `StartTls.NoNewRead` | src/threads/thread_readstream.c:119-132 | A reader that is not already on its way into a read starts none while the state is TLS_INIT, and only the end of the callback changes that state |
| `StartTls.NeverBothWait` | src/xmpp/get/xmpp_starttls.c:87-95 | Reader and dispatcher are never both blocked on the condition variable, and what a blocked thread waits for has not happened yet |
| `StartTls.MissedMeans` | src/threads/thread_readstream.c:119-144 | In every run, the answer is missed under TLS_INIT if and only if the reader is not on its way into a read and the one message read, if any, was not `proceed` |
| `StartTls.SetTlsDecides` | src/xmpp/get/xmpp_starttls.c:87-95 | The step to TLS_INIT is itself a miss if and only if the reader is not inside a read at that moment |
| `StartTls.NothingBehind` | src/xmpp/get/xmpp_starttls.c:87-95 | If nothing the server sent behind its offer is on the wire, queued or in the reader's hands, the step to TLS_INIT of a session not yet encrypted is not a miss, and RUN can be reached |
| `StartTls.OfferAlone` | src/threads/thread_readstream.c:119-144 | In every run in which the server sends its offer and waits, the step to TLS_INIT is not a miss |
| `StartTls.HandoffWorks` | src/threads/thread_readstream.c:119-144 | There is a run from the start in which the state becomes RUN |
| `StartTls.QueueHolds` | src/threads/thread_readstream.c:41-77 | In every run the queue holds at most 16 messages, and the reader is held up by it only at 16 |
| `StartTls.WakesItself` | src/threads/thread_readstream.c:121-124 | A spurious wake-up wakes a waiting thread and changes nothing else |
| `StartTls.ReadDecides` | src/threads/thread_readstream.c:134-144 | If the reader is inside a read, the message it brings decides: the answer is missed if and only if that message is not `proceed` |
| `StartTls.HandoffFate` | src/threads/thread_readstream.c:119-144 | From a state TLS_INIT of any run, some continuation reaches RUN if and only if `proceed` was the one message read, or a read is due and the wire is empty or starts with `proceed` |
| `StartTls.HandoffHangs` | src/threads/thread_readstream.c:121-124 | Once the answer is missed in a run, no continuation of it ever leaves TLS_INIT |
| `StartTls.OneMessageTooMany` | src/threads/thread_readstream.c:119-144 | There is a run from the start, with one message of the server between its offer and its answer, in which that message is the one read under TLS_INIT and the answer is missed |
| `StartTls.MissedUnread` | src/threads/thread_readstream.c:119-144 | There is a run from the start, with the same message read before the state changes, in which the answer is missed without any read under TLS_INIT |
| `StartTls.StoppedMeans` | src/threads/thread_readstream.c:115-172 | When both threads are stopped, it is the server's turn, the answer was missed, the receive queue overflowed while the offer was taken up, or the session is dead |
| `Gameroom.MergeContent` | src/gameroom.c:46-64 | If all messages are complete and a revision determines the content, a part survives them and holds the highest revision seen with the content that belongs to it |
| `Gameroom.RoomConverges` | src/gameroom.c:309-335 | The same messages in any order, with any repetition, are survived and leave every part the same, if a revision determines a part's content and the parts are complete |
| `Gameroom.CompleteParts` | src/gameroom.c:77-138 | Whatever the room held, a part's message leaves one and the same content and does not end the program, if and only if it is not the core, or the core with a room name and a list of closed players |
| `Gameroom.PartsTogether` | src/gameroom.c:309-335 | Messages that every part survives alone are survived by the room, and each part ends as it would alone |
| `Gameroom.CoresCommute` | src/gameroom.c:77-137 | When two cores of different revisions can be exchanged, exactly, including the null pointers of a nameless core and of an unclosed player |
| `GameroomSamples.MissingPlayersDoNotCommute` | src/gameroom.c:93-137 | Two messages to a fresh room, a core with a player and a higher core without a list of players, leave one player in one order and none in the other |
| `GameroomSamples.NamelessCoreEndsProgram` | src/gameroom.c:86-91 | Two messages to a fresh room, a core with a name and a higher one without, end the program in this order and are taken in the other |
| `Gameroom.Gameroom.constructor` | src/gameroom.c:291-307 | A new room has revision 0 in every part |
| `Gameroom.UntouchedIsBlank` | src/gameroom.c:46-64 | Whatever messages a room has survived, a part still at revision 0 is blank |
| `SyncMask.BitsShift` | include/wb_gameroom.h:32-41 | The bits of the mask are the powers of two in the order of the parts |
| `Gameroom.Gameroom.ReadPlayers` | src/gameroom.c:98-134 | The loop over the player elements builds the list from its head, or ends the program at an unclosed one |
| `Gameroom.Gameroom.SyncNode` | src/gameroom.c:46-64 | Only the named part changes, to what the merge makes of it, and the result is its bit exactly when its revision went up; it fails exactly when the merge ends the program |
| `Gameroom.Gameroom.Parse` | src/gameroom.c:309-335 | The program ends exactly when the merge of some part ends it; otherwise the room after a message is the specified one, the mask names exactly the parts whose revision went up, and the others are untouched |
| `Gameroom.Gameroom.Update` | src/gameroom.c:337-363 | Exactly the parts named by the mask are taken over, with the room id and the room type, and the id is taken away from the source |
| `Gameroom.Gameroom.ParseThrough` | src/gameroom.c:309-363 | Parsing into a scratch copy and carrying over what the mask names is the same as parsing in place, and ends the program on the same messages |
| `GameroomText.MessageRead` | src/gameroom.c:77-335 | A message that writes out a whole room, read into any room: the id and the type are taken over, every part of a higher revision becomes exactly what the message says (each string and number under its own attribute name and in its C width, the escaped room name, the players with the last one first), and the other parts stay |
| `GameroomText.WrittenConverges` | src/gameroom.c:46-335 | Messages that write out the same rooms, in any order and with any repetition, are survived and leave every part the same, if a revision of a part determines what is said of it |
| `GameroomText.NewestStays` | src/gameroom.c:46-64 | Of such messages, a part ends as the one with its highest revision says |
| `GameroomText.PartRead` | src/gameroom.c:152-289 | A part other than the core holds the strings and numbers of its attributes, for all values, whatever it held before |
| `GameroomText.CoreRead` | src/gameroom.c:77-137 | The core holds its unescaped name, its numbers and its players, whatever it held before |
| `GameroomText.PlayerRead` | src/gameroom.c:107-127 | A player holds each string and number under its own attribute name |
| `GameroomText.PlayersRead` | src/gameroom.c:93-134 | A list of players is held with the last one first, each with its own attributes |
| `GameroomText.PartInMessage` | src/gameroom.c:319-329 | A part written as an empty element is found in the message between the others |
| `GameroomText.CoreInMessage` | src/gameroom.c:319-329 | The core is found as an element with a body |
| `GameroomText.StringHeld` | src/gameroom.c:72-75 | In any message, a string whose attribute stands first in its part is held as it stands there |
| `GameroomText.NumberHeld` | src/gameroom.c:66-67 | In any message, a printed number whose attribute stands first in its part is held in the width of its field |
| `GameroomText.StringMissing` | src/gameroom.c:72-75 | A missing attribute leaves no string, also where there was one |
| `GameroomText.NumberMissing` | src/gameroom.c:66-67 | A missing attribute leaves the number 0 |
| `GameroomText.StoreIs` | include/wb_gameroom.h:50-190 | What storing a 64-bit number into char, int, unsigned int and unsigned long leaves of it |
| `GameroomText.MinimumForPlayers` | src/gameroom.c:83-84 | Where the least number of ready players stands before the number of players, it is taken for both |
| `GameroomText.AttributesRead` | src/tools/get_info.c:26-54 | In a list of attributes no name of which ends with a later one, each is read under its own name |
| `GameroomMessage.RoomFromMessage` | src/gameroom.c:77-335 | A fresh room read from one message with two players, a mission and a part of revision 0 |
| `Missions.Pigeonhole` | src/xmpp_wf/get/xmpp_iq_missions_get_list.c:182-187 | At most as many candidates can be taken as there are names in the list |
| `Missions.FreeNameIsFirst` | src/xmpp_wf/get/xmpp_iq_missions_get_list.c:171-189 | The name found is new, is the first free candidate, and is found within one try more than the list is long |
| `Missions.ChooseName` | src/xmpp_wf/get/xmpp_iq_missions_get_list.c:178-189 | The loop ends and finds that name in the heap list |
| `Missions.NamesAreDistinct` | src/xmpp_wf/get/xmpp_iq_missions_get_list.c:104-196 | The names are pairwise distinct, whatever the server's list contains |
| `Missions.LookupFinds` | src/mission.c:28-31 | Looking a name up returns the mission that got it |
| `Missions.ReadMissions` | src/xmpp_wf/get/xmpp_iq_missions_get_list.c:99-196 | The callback's list holds the server's missions, newest first, with pairwise distinct names |
| `Missions.NumberedInOrder` | src/xmpp_wf/get/xmpp_iq_missions_get_list.c:171-189 | If no type looks numbered itself, the k-th mission of a type in the server's order gets the bare name for k = 1 and _k behind it otherwise |
| `Missions.NamesInList` | src/xmpp_wf/get/xmpp_iq_missions_get_list.c:110-196 | The names in the list, newest first, are those given to the types of the server's elements in turn |
| `Missions.BaseIs` | src/xmpp_wf/get/xmpp_iq_missions_get_list.c:172-176 | The base of a type is what stands before its first "mission", or all of it |
| `Missions.CandidateIs` | src/xmpp_wf/get/xmpp_iq_missions_get_list.c:178-187 | The first candidate is the base, the c-th one has _c behind it |
| `Missions.TextIsNamed` | src/xmpp_wf/get/xmpp_iq_missions_get_list.c:104-190 | A list of missions written as a text gives the names of the types of its elements, in their order |
| `Missions.UnclosedElement` | src/xmpp_wf/get/xmpp_iq_missions_get_list.c:110-121 | A list with an element that does not end is a null pointer for the program |
| `LinkedList.List.Add` | src/tools/list.c:31-44 | A fresh node goes to the head and the chain behind it is the old one |
| `LinkedList.List.Remove` | src/tools/list.c:47-76 | Only the first match leaves the chain; the other nodes keep their order, and the length stays the number of nodes |
| `LinkedList.List.GetBy` | src/tools/list.c:133-146 | The value of the first match, or nothing when there is none |
| `LinkedList.List.Empty` | src/tools/list.c:83-103 | The list is empty afterwards |
| `LinkedList.List.Foreach` | src/tools/list.c:121-131 | With a callback that adds and removes anything, the loop visits what the specified walk visits and leaves its list, or reads a freed node exactly when the walk does |
| `LinkedList.WalkVisitsAll` | src/tools/list.c:121-131 | A walk visits exactly the elements it started with, once each, in order and without reading a freed node, if and only if no call of the callback removes an element that is still ahead |
| `LinkedList.OwnKeysAreSafe` | src/tools/list.c:47-76 | A callback that adds anything and removes at most once, by a key of the element it is called with, removes nothing that is ahead |
| `LinkedList.SuccessorFreed` | src/tools/list.c:121-131 | A callback that removes the element after the one it is called with makes the loop read a freed node |
| `LinkedList.OneGonePerVisit` | src/threads/threads.c:84-90 | A callback that always removes by its own key is called once for each element and takes one away each time, so none is left |
| `Quickplay.AlwaysConsistent` | src/quickplay.c:56-323 | In every run a search is never both pending and confirmed, players and a start callback exist only for one, and a start callback runs at most once per accepted start |
| `Quickplay.FiresExactlyWhenDue` | src/quickplay.c:264-286 | In every run an event runs a callback exactly if it is a success whose uid is the confirmed one, with no second try asked for and a callback set, and then once |
| `Quickplay.AnswerCounts` | src/quickplay.c:199-235 | In every run, an answer to an invitation of the pending search marks the player who accepts and takes the one who refuses out of the group, and changes nothing else |
| `Quickplay.AnswerTooLate` | src/quickplay.c:236-243 | In every run with a group, an answer for another search or by someone not in the group changes nothing but tells that player that the invitation has expired; without a group it is ignored |
| `Quickplay.OpensElsewhere` | src/quickplay.c:109-162 | Opening a search in a channel of the other kind joins a server of that kind, if there is one, and leaves the search pending |
| `Quickplay.OpensHere` | src/quickplay.c:109-143 | In a channel of its kind, or without one, opening a search goes on at once with what was to be done |
| `Quickplay.RefusalDelays` | src/quickplay.c:264-269 | After a refusal one success is passed over, and the next one counts |
| `Quickplay.ChannelsAndKinds` | src/quickplay.c:132-139 | The kinds and channels of searches against the computer |
| `Quickplay.WholeSearchRuns` | src/quickplay.c:70-286 | Opening a search, inviting two players of whom one accepts, starting, confirmation and success: the state at each end, and all that was sent, in order |
| `Quickplay.CancelTellsAll` | src/quickplay.c:56-72 | In every run a cancel tells every invited player of a pending search, and the server exactly of a confirmed one |
| `Quickplay.NeverAfterCancel` | src/quickplay.c:56-72 | After a cancel by the user or the server, no callback of an earlier start ever runs |
| `Quickplay.FiredForOwnSearch` | src/quickplay.c:80-107 | If uuids do not repeat and the server confirms only searches it was asked for, every callback that runs was set for the very search that succeeded |
| `Quickplay.Search.Free` | src/quickplay.c:304-323 | Which fields are cleared, and that the others stay |
| `Quickplay.Search.DropSearch` | src/quickplay.c:56-72 | Every invited player of a pending search is told, the server is told of a confirmed one, and everything is cleared |
| `Quickplay.Search.StartSearch` | src/quickplay.c:80-107 | Without a pending search nothing changes; otherwise the callback is replaced, a group exists, and the search is sent |
| `Quickplay.Search.InvitePlayer` | src/quickplay.c:165-197 | The player goes to the head of the group and gets an invitation, only while a search is pending |
| `Quickplay.Search.OpenSearch` | src/quickplay.c:109-163 | Opening is refused while a search is confirmed; otherwise the fields are set and the callback runs at once exactly when the channel fits |
| `Quickplay.Search.PreinviteAnswered` | src/quickplay.c:199-243 | The first player with the id is marked or leaves the group when the uid is the pending one; anything else is answered with an expiry |
| `Quickplay.Search.SearchStarted` | src/quickplay.c:245-262 | The pending uid becomes the confirmed one exactly when it is the one named |
| `Quickplay.Search.SearchSucceeded` | src/quickplay.c:264-286 | A second try uses up one success; otherwise the callback runs, with whatever commands it gives, and then everything is cleared |
| `Quickplay.Search.SearchCanceled` | src/quickplay.c:288-298 | Everything is cleared exactly when the uid is the confirmed one |
| `Quickplay.Search.Play` | src/quickplay.c:56-323 | On the fields, any sequence of events keeps the invariant and leaves the state of the specified run, so what is proved of runs holds of the fields |

## Left out

- Sockets, OpenSSL, recv and send: a transport that hands out arbitrary non-empty pieces; a send is whole.
- zlib and the WAKE cipher: arbitrary functions with decompress(compress(x)) = x, also with bytes behind it, and decrypt(encrypt(m)) = m for one key and messages below 2^31, since the length is passed as an int.
- Clocks: the times of registrations and scans are parameters; those of a callback are not earlier than its scan.
- Thread cancellation, shutdown and its cleanup handlers, and `STATE_DEAD` written by other threads.
- `StartTls`: a `proceed` handler that times out after 120 seconds is called with nothing and would start TLS; no timeouts happen in that model. Messages that end the stream are not modelled either.
- `StartTls`: only the variant with TLS; without it the handoff is one assignment under the mutex.
- Threads that call the two callback tables at the same time: the query table has no lock, and both are modelled as used by one thread at a time; in the id table other threads may register only where a callback runs.
- `IdHandler.Counter.GenerateUniqueId`: two threads can print the same identifier because the counter is read again after its lock is released; the model generates one at a time.
- `IdHandler.IdHandlers.Handle`: callbacks only register, which is all the program's callbacks can do to this table; handling another message from inside a callback is not modelled.
- The type and the text of a message handed to callbacks, and what callbacks do apart from the tables.
- `QueryHandler.QueryHandlers.Register`: after the failed assertion the program ends; the model keeps a flag and does nothing more.
- `LinkedList.List.Foreach`: a callback that empties the list, and what happens after a freed node was read.
- The `tail` field of lists and `list_last`; freeing the values of removed elements.
- `Gameroom.Gameroom.SyncNode`: the comparison of the freed old room name with the new one is taken to differ, so a name is always unescaped; the floating point skill of players and fields no function of the file fills are left out.
- `Gameroom.Gameroom.Update`: the same object as source and destination, and the pointers that both share until the source is thrown away.
- `gameroom_sync`, whose source is not part of this model.
- `QueryCache.QueryCacheFile.Load`: NUL bytes in a file, and errors of reading and closing.
- `QueryCache.CacheRoundTrip`: a first hash that contains an angle bracket, and a query name that does; a bracket in the hash ends the start tag early and what is then read depends on the rest of the file.
- `QueryCache.CachedCopyAgrees`: the same hashes and names, and the copies at other moments than the completion of a file.
- `QueryCache.SessionFile`, and the theorems that follow from it: they are about runs from the start of the program, where no file is open.
- `QueryCache.InterruptedDownload`: the same hashes and names, and a file cut off inside its start tag, of which nothing is loaded.
- `WfQuery.PackedContent`: a head in which `compressedData='` or `originalSize='` already occurs; what is then decoded is decided by that text and by zlib.
- `WfQuery.CompressionPreservesContent`: the same heads, made of the message up to its namespace and the name of the query.
- `WfQuery.CompressionKeepsTagName`: messages that are not an iq with a query tag in front of the namespace, with a tag opened between that tag and the namespace, or with the namespace in text before the first tag.
- `WfQuery.PackedText`, `WfQuery.PackedKeepsAttributes`: queries that do not start with their first tag; attributes looked for without the blank in front, which may be met at the end of another name, and those dropped with arguments longer than 512.
- `GameroomText.MessageRead`: values that end with '=' or hold a quote or an angle bracket, which the server escapes; a value that ends with '=' looks like the name of an attribute.
- `Missions.ReadMissions`: the attributes of a mission other than its type, which are read from the text kept, and the maps for player against player appended at the end.
- `Quickplay.Search.OpenSearch`: the callback that runs later, after joining another channel, whose commands a run may contain as events of their own; `quickplay.master`, which the file only frees; commands and events from two threads at once.
- `new_random_uuid`: the made-up uuids are an arbitrary function of how many were made; where a theorem needs them distinct it says so.
- `Framing.Connection.StreamSend`: the static `_protect` and `cvar.online_use_protect` do not change during a session, so each mode is modelled by itself.
- `CStrings.GetInfoFirstScan`: the debugging description argument of the tag readers.
- D-Bus, console commands, language strings, dumps, option parsing, the field-copying answers of the many queries, and clan member removal.
