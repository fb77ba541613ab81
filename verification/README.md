# A model of the network programs, with proofs

Three servers of the repository are modelled in Dafny, each in the form that its C code has: loops over
buffers, classes with fields that methods update, linked lists in the heap, and event loops.

* **The TFTP server** (`Assignment_3`): the netascii reader and writer (`Netascii.dfy`, `FileIO.dfy`), the
  packet routines (`Packets.dfy`), the two transfer handlers (`WriteServer.dfy`, `ReadServer.dfy`), an upload
  as a system of a sender, the handler, and two channels that lose and repeat packets (`Upload.dfy`,
  `BeyondLimit.dfy`), and what the handler makes of blocks that arrive out of order (`Reordering.dfy`).
* **The caching HTTP proxy and its client program** (`Assignment_4`): the doubly linked connection list and cache
  queue (`FdLists.dfy`, `CacheQueues.dfy`), a state machine of connections, buffers and queue with its invariant and
  what follows from it (`ProxyModel.dfy`, `ProxyInvariant.dfy`, `ProxySafety.dfy`), which nodes are freed and who uses
  them then (`ProxyMemory.dfy`), what a whole answer does (`ProxyAnswers.dfy`), runs that go wrong (`ProxyRuns.dfy`),
  the handlers on the heap, which refine that machine (`Proxy.dfy`), the main loop (`EventLoop.dfy`), who is served
  in it (`Service.dfy`, `Progress.dfy`), the way of a response from the server to the client program's file
  (`Relay.dfy`), and the way of a URL from the client program to the proxy (`Url.dfy`, `Requests.dfy`).
* **The chat server** (`Assignment_2`): the roster as a state machine (`Roster.dfy`), and the linked list with
  the router that passes over it (`ChatServer.dfy`), which refines that machine.

`dafny verify dfyconfig.toml` checks the whole project. `Bytes.dfy`, `Blocks.dfy`, `Sessions.dfy`, `ProxyTypes.dfy`
and `Options.dfy` hold what several modules share.

## How the environment is modelled

What `select`, `recv`, `recvfrom`, `send`, `accept` and `connect` return is arbitrary: an event sequence or a
schedule that every theorem quantifies over, or an input of the proxy's loop (`EventLoop.Select`: which sockets are
ready, and what each visit of the pass would get from its socket). `recv` gives 0 to 1500 bytes, `send` takes 0 bytes
or more of what it is offered, a new socket is one that is not in use. `realloc` may add any bytes. Machine integers are written out where they matter: block numbers are 16-bit words that
wrap around, `bswap_16` exchanges bytes in a little-endian store, and a signed `char` with the value 255 compares
equal to `EOF`.

`free` has no effect on the records of the proxy's machine. Instead the machine says which nodes are freed
(`ProxyModel.Freed`; on the heap it is the queue's own account, `Proxies.Proxy.FreedNodes`), what a handler uses
(`ProxyMemory.Uses`), and the theorems about documents and deliveries speak only of nodes that are not freed: what the
machine records of a freed node says nothing about the memory.

## Where the code and its documents differ

The model does what the code does.

* `Assignment_3/README.md:37` speaks of 10 consecutive timeouts and an ERROR packet. The counter is never reset
  and no packet is sent (`WriteServer.UploadEndsIff`, `ReadServer.ReadFailsIff`).
* `Assignment_3/README.md:18` says that uploaded text files keep their contents. The decoder carries nothing from one
  block to the next, so a CR pair that a block boundary splits is not decoded, and byte 255 ends a block
  (`Upload.NetasciiUploadIsExactIff` has the exact condition).
* Block numbers are compared as 16-bit words, so block 65536, numbered 0, is acknowledged and not written
  (`Upload.OctetUploadIsExactIff`).
* Block numbers are only compared with the last one. A late copy of an old block makes the next one be written again
  (`WriteServer.StaleBlockCausesRewrite`), and under reordering an upload is exact if and only if that never happens
  (`Reordering.ReorderedUploadIsExactIff`). The channels of the upload system keep packets in order.
* The read handler does not send a block again after a timeout but reads and sends the next one under the same number.
  A transfer can succeed with a block missing (`ReadServer.TimedOutBlockIsMissing`); it is complete if and only if
  every block with data is acknowledged right after it was sent (`ReadServer.ReadIsExactIff`).
* The queue that is called LRU is never reordered by a hit (`CacheQueues.EvictionIsFirstInFirstOut`).
* `Assignment_4/architecture_single_process.md:39-49` wants a document that is being sent to survive its eviction. No
  handler sets `IN_USE`, so it is freed as soon as as many responses as there are slots were enqueued after it
  (`ProxyMemory.ServedBufferIsFreedIff`), and with one client more than there are slots that happens before the first
  byte is sent (`ProxyRuns.FreedWhileServed`). Until the queue has been filled once, nothing freed is ever used
  (`ProxyMemory.SafeWhileQueueHoldsAll`).
* A conditional GET that is answered in full does not refresh the cache: the client gets the new document, and
  the queue keeps the old one (`ProxyAnswers.EntryIsNotRefreshed`; `ProxyMemory.ResponseIsCachedIff` says when a response
  becomes an entry).
* A 304 answer whose entry was evicted while it was awaited becomes an entry itself, an orphan
  (`ProxyMemory.OrphanArisesIff`), and is served as the document (`ProxyRuns.OrphanIsServed`). The confirmed entry is
  freed by then, so that in C such a run has stored a date in freed memory. The theorems about whole documents
  name this exception.
* A URL whose scheme has one slash or three is not split the way it is meant (`Urls.SplitIsMeantIff`).
* The chat server's cap counts connections, joined or not (`Roster.CapCountsConnections`).
* After `client_write_handler` the loop saves the next node and does not assign it (`Assignment_4/proxy.c:73`). The model
  takes the saved node as the next one there as well.

## Model

| member | source | states |
|---|---|---|
| Netascii.DecodeEncode | Assignment_3/lib.c:37-73 | decoding the encoding of any file gives the file back |
| Netascii.DecodeBlockIsDecode | Assignment_3/lib.c:157-191 | the server's one-byte-lookahead block decoder is the standard's decoder on every block without byte 255 that does not end in CR, whatever byte lies behind the block |
| Netascii.StoredIsDecode | Assignment_3/lib.c:157-191 | block-by-block decoding of any stream without byte 255 is decoding of the whole stream, for any division in which no block ends in CR |
| Netascii.StoredRemainder | Assignment_3/lib.c:157-191 | every block boundary inside a CR pair makes the stored file exactly one byte too long, and without any it is exact |
| Netascii.UploadIsExactIff | Assignment_3/lib.c:157-191 | the file stored from the encoding of f in 512-byte blocks is f if and only if f has no byte 255 and no block ends in CR |
| FileIO.TakeConserves | Assignment_3/lib.c:37-82 | a read moves bytes from the stream to the caller and never loses, repeats or invents one, also across a byte that reads as EOF |
| FileIO.BlockReader.ReadBlock | Assignment_3/lib.c:37-82 | the block in the buffer and the reader's position and pending byte afterwards are what the encoding of the rest of the file demands, in every mode |
| FileIO.BlockReader.ReadNetascii | Assignment_3/lib.c:38-73 | the getc loop delivers the next 512 bytes of the encoding, carrying the second half of a CR pair to the next call; a short block leaves no pending byte |
| FileIO.ReadsAreTheStream | Assignment_3/lib.c:37-82 | successive reads are full blocks up to a short last one, and together they are the stream |
| FileIO.TextFileIsReadAsItsEncoding | Assignment_3/lib.c:34-73 | successive netascii reads of a file without byte 255 give exactly the standard's encoding of it |
| FileIO.FileWriter.WriteData | Assignment_3/lib.c:157-199 | what a block appends to the file in each mode, and that no pending byte ever arises |
| FileIO.FileWriter.WriteNetascii | Assignment_3/lib.c:158-191 | the putc loop appends the block decoded with one byte of lookahead into the buffer behind it |
| Bytes.SwappedStoreIsNetworkOrder | Assignment_3/lib.c:141-149 | a byte-swapped word in little-endian memory is the word in network order, and swapping what is read there gives the word back |
| Packets.DataToBuffer | Assignment_3/lib.c:141-153 | the 516-byte buffer is opcode 3, the block number in network order, and the payload |
| Packets.AckToBuffer | Assignment_3/lib.c:220-232 | the first four bytes are opcode 4 and the block number in network order |
| Packets.ParseDataPacket | Assignment_3/lib.c:262-269 | the block number, and the payload moved four bytes down in its own buffer, overlapping, with everything behind it unchanged |
| Packets.ParseWireData | Assignment_3/lib.c:202-217 | reading a DATA packet gives back the block number and payload it was made of, for every number and length |
| Packets.ParseWireAck | Assignment_3/lib.c:235-259 | reading an ACK packet gives back its block number |
| Packets.WireDataOfParse | Assignment_3/lib.c:262-269 | whatever datagram reads as a DATA packet is the one that would be made of what was read |
| WriteServer.WrqHandler | Assignment_3/lib.c:529-602 | the loop's outcome, file and ACK datagrams for every sequence of datagrams and timeouts are those of the transfer machine |
| WriteServer.HandleData | Assignment_3/lib.c:585-600 | a DATA packet in the receive buffer is appended exactly if its number is higher than the last one; the lookahead byte is the stale byte of the same packet |
| WriteServer.StaleBlockCausesRewrite | Assignment_3/lib.c:539-594 | a reordered old block makes the following block be written twice: a concrete run |
| Reordering.FileIsFrontOfSourceIff | Assignment_3/lib.c:585-600 | for any order in which copies of full blocks arrive, from a sender that is one block ahead at most, the file is the source up to the newest block if and only if no old block is followed by a later one that had arrived before |
| Reordering.ReorderedUploadIsExactIff | Assignment_3/lib.c:585-600 | with the last block behind them the transfer succeeds, and the file is the source under exactly the same condition |
| Reordering.InOrderNeverGoesBack | Assignment_3/lib.c:585-600 | blocks that arrive once and in order meet that condition |
| WriteServer.CapCountsAllTimeouts | Assignment_3/lib.c:554-564 | the transfer fails exactly when ten timeouts have happened in all, however many full blocks arrive between them |
| WriteServer.UploadEndsIff | Assignment_3/lib.c:554-583 | for every sequence of events the transfer fails exactly by the tenth timeout in all or by a datagram whose opcode word is not 3, before any short block, and succeeds exactly by a short block before those |
| WriteServer.NoDataEndsUpload | Assignment_3/lib.c:575-583 | a datagram whose opcode word is not 3, such as an ERROR, ends a running transfer and leaves file and ACKs as they were, whatever follows |
| Upload.NextKeepsInv | Assignment_3/lib.c:529-602 | every action of sender, server and channels keeps the relation between the file, the last acknowledged block and what is in flight |
| Upload.ServerIsHandler | Assignment_3/lib.c:529-602 | the server in the system is the write handler fed with what the channel delivers |
| Upload.UploadIsSafe | Assignment_3/lib.c:529-602 | in every reachable state, for a source of any length, the file is that of the blocks accepted so far, without gap or repeat; on success or when the sender has its last ACK it is that of all blocks; failure only by ten timeouts |
| Upload.OctetUploadIsExactIff | Assignment_3/lib.c:585-600 | a finished binary upload equals the source if and only if the source fits in 65535 full blocks |
| Upload.NetasciiUploadIsExactIff | Assignment_3/lib.c:585-600 | a finished text upload of the encoding of f equals f if and only if the encoding fits in 65535 full blocks, f has no byte 255 and no block ends in CR |
| BeyondLimit.ExactBeyondLimit | Assignment_3/lib.c:585-600 | a file whose encoding is beyond that limit, with blocks ending in CR, whose upload is exact all the same, since the line feeds stored twice make up for those of the block that is not stored |
| Upload.OctetFileIsFrontOfSource | Assignment_3/lib.c:529-602 | at the select point of a binary upload the file is the concatenation of the blocks accepted so far, in every reachable state with at most 65535 of them |
| Upload.CanSucceedIff | Assignment_3/lib.c:529-602 | from a reachable state with a waiting server some continuation succeeds, unless the first ACK is lost and one timeout is left |
| Upload.DoomedNeverSucceeds | Assignment_3/lib.c:554-564 | from that state no continuation succeeds |
| ReadServer.RrqHandler | Assignment_3/lib.c:432-477 | the loop's outcome and all datagrams sent, for every sequence of datagrams and timeouts, are those of the transfer machine |
| ReadServer.MakeDataPacket | Assignment_3/lib.c:202-217 | the datagram is the DATA packet with the next block of the stream; in an unknown mode three zero bytes |
| ReadServer.RunKeepsInv | Assignment_3/lib.c:432-477 | over every run each byte of the file is sent or still to be read, and each byte sent is acknowledged, waiting or lost |
| ReadServer.SentIsPrefixOfStore | Assignment_3/lib.c:432-438 | over every run the payloads sent are one behind the other a prefix of the encoded file |
| ReadServer.ReadIsExactIff | Assignment_3/lib.c:432-477 | on success the acknowledged data is the encoded file if and only if the first events are the ACKs of all the blocks with data, in turn and with nothing in between, and, for text, the file has no byte 255 |
| ReadServer.TimedOutBlockIsMissing | Assignment_3/lib.c:443-475 | a file of one full block: one timeout, and the transfer succeeds although the client got nothing |
| ReadServer.CleanRun | Assignment_3/lib.c:432-477 | without timeouts and stray packets the transfer takes one block per 512 bytes and a short one, numbered modulo 65536, and succeeds with the last ACK and not before |
| ReadServer.ReadFailsIff | Assignment_3/lib.c:443-465 | for every sequence of events the transfer fails exactly if there is the tenth timeout in all, or a datagram with opcode word 5, before the event that it succeeds with; ACKs and stray packets do not reset the count |
| FdLists.FdList.Append | Assignment_4/lib.c:434-440 | on the sentinel list: insertion in front of the rear dummy, both chains kept |
| FdLists.FdList.Remove | Assignment_4/lib.c:443-449 | on the sentinel list: exactly the given node goes, both chains kept |
| CacheQueues.CacheQueue.constructor | Assignment_4/lib.c:253-273 | a queue of maxSlot linked dummies |
| CacheQueues.CacheQueue.Dequeue | Assignment_4/lib.c:337-351 | the rear node is unlinked; it is freed if idle and left alone if in use |
| CacheQueues.CacheQueue.Enqueue | Assignment_4/lib.c:354-361 | the chains, the slots, the history and the freed and spared nodes after an enqueue of a new node |
| CacheQueues.CacheQueue.IsCacheHit | Assignment_4/lib.c:363-376 | the first complete entry for the URL, from the front |
| CacheQueues.CacheQueue.SlotsAreKnown | Assignment_4/lib.c:337-361 | every node ever in the queue is in it, freed or spared, and no freed or spared node is in it |
| CacheQueues.QueueIsNewestFirst | Assignment_4/lib.c:354-361 | after any run the queue is the newest nodes, newest first, and behind them what is left of the initial dummies |
| CacheQueues.EvictionIsFirstInFirstOut | Assignment_4/lib.c:337-361 | nodes leave in the order in which they came |
| CacheQueues.StaysUntilPushedOut | Assignment_4/lib.c:354-361 | a node is in the queue if and only if fewer than maxSlot nodes came after it |
| CacheQueues.EvictedOnce | Assignment_4/lib.c:337-351 | over any run no node leaves twice and none that has left is in the queue |
| ProxyInvariant.FillingIsExclusive | Assignment_4/lib.c:737-741 | a buffer that is being filled belongs to one client and its server; no other connection and no cache slot has it |
| ProxyInvariant.AcceptedKeepsInv | Assignment_4/lib.c:765-776 | the joint invariant of list, pairs, buffers and cache survives a new client |
| ProxyInvariant.RequestReadKeepsInv | Assignment_4/lib.c:714-763 | it survives a request, with a server that connects or a client that is dropped, on a hit and on a miss |
| ProxyInvariant.RequestWrittenKeepsInv | Assignment_4/lib.c:821-829 | it survives every partial and final send to a server |
| ProxyInvariant.ResponseReadKeepsInv | Assignment_4/lib.c:794-819 | it survives every chunk of a response, its end, and a 304 answer |
| ProxyInvariant.ResponseWrittenKeepsInv | Assignment_4/lib.c:778-792 | it survives every partial and final send to a client |
| ProxyInvariant.StepKeepsInv | Assignment_4/lib.c:714-829 | every handler in every order keeps the invariant |
| ProxySafety.InitialInv | Assignment_4/proxy.c:21-29 | the set-up establishes the invariant |
| ProxySafety.RunKeepsInv | Assignment_4/proxy.c:31-104 | the invariant holds in every state that a run reaches |
| ProxySafety.ServersMatchWaitingClients | Assignment_4/lib.c:737-743 | live servers and waiting clients correspond one to one by links in both directions, and are equally many |
| ProxySafety.EntriesAreWhole | Assignment_4/lib.c:807-813 | a hit is for the URL that was asked and starts with all that a server sent before it closed, unless it is an orphan |
| ProxySafety.HitIsTheOnlyEntry | Assignment_4/lib.c:363-376 | a lookup finds c if and only if c is a complete entry for the URL: keys are unique |
| ProxySafety.FilledIsNotCached | Assignment_4/lib.c:547-607 | no handler stores into a buffer that is or was in the cache |
| ProxyMemory.ResponseIsCachedIff | Assignment_4/lib.c:807-813 | at the end of a response its buffer becomes an entry if and only if no entry for its URL is in the queue; otherwise the queue and all lookups stay as they are, and the client gets the new buffer, or on a 304 the entry |
| ProxyAnswers.RequestIsConditionalIff | Assignment_4/lib.c:734-757 | a client whose server can be reached waits for it, linked both ways, and the request is conditional exactly if the queue has a complete entry for the URL, which the server then knows |
| ProxyAnswers.UnreachableDropsClient | Assignment_4/lib.c:728-735 | a client whose server cannot be reached is dropped, and no other connection, list place, buffer or cache slot changes |
| ProxyAnswers.AnswerEndsIff | Assignment_4/lib.c:574-604 | a read drops the server if and only if it is empty, or it is the first read of the answer 304 to a conditional request |
| ProxyAnswers.AnswerGoesOn | Assignment_4/lib.c:554-604 | a chunk that is no confirmation: the server stays, its offset moves by the chunk, the buffer's response grows by it, the date is that of the first header, and the client waits on, with the server's own buffer |
| ProxyAnswers.AnswerIsServed | Assignment_4/lib.c:599-604 | the end of an answer that is no confirmation: the server goes, and its client is to be written the server's own buffer |
| ProxyAnswers.ConfirmationServesEntry | Assignment_4/lib.c:577-592 | a 304 answer to a conditional request: the client is to be written the known entry, which gets the new date and nothing else; all other buffers stay as they are |
| ProxyAnswers.EntryIsNotRefreshed | Assignment_4/lib.c:574-604 | a full answer to a conditional request, from its first chunk to the empty read and with any events for others in between: if the old entry is still in the queue lookups still find it, with its document unchanged, while the client gets a buffer with all that the server sent |
| ProxyMemory.OrphanArisesIff | Assignment_4/lib.c:578-594 | a 304 answer becomes an entry if and only if it confirms an entry, comes with data, and no entry for its URL is in the queue any more; the confirmed one is freed by then |
| ProxyRuns.OrphanIsServed | Assignment_4/lib.c:578-594 | a run from the start in which a bare 304 answer becomes an entry and is then sent to another client as the document |
| ProxyMemory.RunIsQueue | Assignment_4/lib.c:354-361 | over any run the queue is the refined one of the enqueued responses, each enqueued for the first time |
| ProxyMemory.DocumentIsFreedIff | Assignment_4/lib.c:337-351 | in every reachable state a document is freed if and only if at least as many responses as there are slots were enqueued after it |
| ProxyMemory.ServedBufferIsFreedIff | Assignment_4/lib.c:337-351 | the same for a buffer that a client is being sent: being sent does not protect it |
| ProxyMemory.FreedForEver | Assignment_4/lib.c:337-351 | what is freed at some point of a run stays freed |
| ProxyRuns.FreedWhileServed | Assignment_4/lib.c:807-813 | for a queue of any size, a run from the start in which the buffer of a client is freed before its first send |
| ProxyMemory.UsesFreedIff | Assignment_4/lib.c:609-642 | a handler uses a freed node if and only if it sends a client a freed buffer, or prints a conditional request from, or takes the confirmation of, a freed entry |
| ProxyMemory.SafeWhileQueueHoldsAll | Assignment_4/lib.c:337-361 | as long as no more responses were enqueued than there are slots no handler uses a freed node |
| ProxyMemory.RunKeepsDocuments | Assignment_4/lib.c:547-607 | over any run a document stays in the queue, unchanged but for its date, exactly until as many responses are enqueued as push it out; then it is freed |
| ProxyMemory.StepKeepsServedBuffer | Assignment_4/lib.c:609-642 | while a client is written to, no handler for anyone else changes its connection, and its buffer stays as it is unless the handler enqueues a response and the buffer is in the last slot |
| ProxyMemory.DeliveredIsWhole | Assignment_4/lib.c:778-792 | when a client is closed and its buffer was not freed, it has got its whole buffer, which starts with the whole response to the URL that it asked for |
| ProxyMemory.DeliveredIsWholeIfRecent | Assignment_4/lib.c:778-792 | in terms of the run: it is so if fewer responses than there are slots were enqueued after that one |
| Proxies.Proxy.FreedNodes | Assignment_4/lib.c:342-351 | the nodes that the queue in the heap has freed are exactly those that the machine calls freed |
| Proxies.Proxy.constructor | Assignment_4/proxy.c:21-29 | the heap represents an initial state of the machine |
| Proxies.Proxy.ListenFdHandler | Assignment_4/lib.c:765-776 | refines the machine's step for a new client; a failed accept changes nothing |
| Proxies.Proxy.ClientReadHandler | Assignment_4/lib.c:714-763 | refines the machine's step for a request, with the host and the path that are parsed from the bytes in the buffer |
| Requests.RequestArrives | Assignment_4/lib.c:722-724 | a request of the client program that arrives in one piece, with its terminating zero, is parsed to the host and the path that were printed, whatever was in the buffer before |
| Requests.PartialRequestIsNotRead | Assignment_4/lib.c:722-724 | without the blank line that ends a header in the buffer no host and no path are read |
| Proxies.Proxy.ServerWriteHandler | Assignment_4/lib.c:821-829 | refines the machine's step for a send to a server |
| Proxies.Proxy.ServerReadHandler | Assignment_4/lib.c:794-819 | refines the machine's step for a chunk of a response |
| Proxies.Proxy.ClientWriteHandler | Assignment_4/lib.c:778-792 | refines the machine's step for a send to a client |
| Proxies.Proxy.RecvResponse | Assignment_4/lib.c:547-607 | the receive buffer, the header fields and the 304 branch for a server |
| Proxies.Proxy.CacheSend | Assignment_4/lib.c:609-642 | offset, status and what was sent after a partial or final send |
| EventLoop.SuccessorIsStillLinked | Assignment_4/proxy.c:64-94 | whatever a handler unlinks or adds, the successor that was saved before is still in the list, and behind it is what was there, or a new node as well |
| EventLoop.ServePass | Assignment_4/proxy.c:43-101 | one pass ends; it visits every node that was in the list at its start exactly once and in order, and each visit has exactly the event that the node's type, its status and its socket demand |
| EventLoop.RunProxy | Assignment_4/proxy.c:21-104 | for whatever the calls of select give, the loop does these passes one after the other, and the proxy only ever is in states that the machine reaches from its start |
| Service.VisitsAreInOrder | Assignment_4/proxy.c:43-101 | of two nodes of the list the first is visited before the second |
| Service.ListenerIsServedIff | Assignment_4/proxy.c:51-61 | a visit to the listening socket accepts the connection exactly if the socket is readable and there is one |
| Service.ClientIsServedIff | Assignment_4/proxy.c:64-79 | a visit to a client reads its request exactly if it is READING and readable, sends it as much as its socket takes exactly if it is WRITING and writable, and does nothing else |
| Service.ServerIsServedIff | Assignment_4/proxy.c:81-95 | the same for a server: its response is read, or it is sent as much of the request as its socket takes |
| Service.ListedAreServed | Assignment_4/proxy.c:43-101 | whoever is in the list when a pass begins is still live when the pass reaches it, in the state that the events of the visits before lead to, and the events of its visit are next among those of the pass |
| Progress.ReadyClientIsClosed | Assignment_4/proxy.c:70-75 | a client that is being sent its buffer, and whose socket takes a byte or more in every pass, is closed by its own send after no more passes than it has bytes left to be sent |
| Relay.FilledBuffer | Assignment_4/lib.c:554-564 | for any chunks the buffer's front is the chunks one behind the other, the rest is kept, and the size exceeds neither the old size nor the data by more than one recv |
| Relay.SendsTakeEachByteOnce | Assignment_4/lib.c:609-642 | any schedule of sends takes each byte of the buffer once and in order, is over exactly when nothing is left, and what is left shrinks with every send that takes something |
| Relay.RequestIsWrittenIff | Assignment_4/lib.c:821-829 | any schedule of partial sends to a server: it becomes READING exactly when the sizes add up to the buffer |
| Relay.Receive | Assignment_4/client.c:125-159 | the client program's loop yields the reassembly of the chunks, trimmed at the announced length |
| Relay.ClientFileIsBodyIff | Assignment_4/client.c:125-159 | for every cutting of header, body and padding into reads the file is the body if and only if the first read does not reach beyond the body |
| Relay.ClientGetsBodyIff | Assignment_4/lib.c:609-642 | end to end, for every schedule: if the buffer is not freed by the last send to the client, its file is the body of the server's response under exactly the same condition |
| Urls.SplitUrl | Assignment_4/client.c:75-102 | the host and the path that the program computes are what the URL means if and only if the URL is well formed |
| Urls.SplitIsMeantIff | Assignment_4/client.c:75-102 | the host is the URL without scheme up to its first slash and the path is the rest, or "/", if and only if the URL has a host in front of that slash and a scheme, if any, with both slashes |
| Urls.ThirdSlashIsTakenForTheHost | Assignment_4/client.c:94-102 | a URL for which this fails |
| Urls.ParseRequest | Assignment_4/lib.c:5-47 | the strtok loop yields the fields of the first line and of all header lines |
| Urls.TokensOfLine | Assignment_4/lib.c:26-27 | a header line in front of others is the first token and leaves the others |
| Urls.RequestIsReadIff | Assignment_4/lib.c:10-44 | a request is read if its first line is long enough and every header line has a space; the path is what is between method and version, and the host is that of the last Host line, or the old one, whatever other lines there are |
| Urls.UrlReachesTheProxyIff | Assignment_4/client.c:104-106 | for every URL without line breaks the proxy reads exactly the host and path that the client program split, without line breaks, and they are what the URL means if and only if it is well formed |
| Urls.UrlFitsIff | Assignment_4/lib.h:36-39 | the request fits in its 1500 bytes whenever host and path fit in their arrays; all fits for every URL of less than 100 characters and for none with more than 351 behind its scheme |
| Roster.RosterIsSafe | Assignment_2/server_lib.c:260-330 | in every reachable roster names of joined clients are distinct, no more than the cap have joined, and sockets are distinct |
| Roster.StepTouchesOnlyItsClient | Assignment_2/server_lib.c:188-200 | whatever a client does, all the others stay connected under their names |
| Roster.JoinIsGrantedIff | Assignment_2/server_lib.c:297-327 | a JOIN is granted if and only if there is room and nobody has the name; otherwise the client is disconnected |
| Roster.TurnedAwayIffOthersFillTheCap | Assignment_2/server_lib.c:301-307 | the refusal for lack of room happens exactly when the other connections, joined or not, fill the cap |
| Roster.CapCountsConnections | Assignment_2/server_lib.c:301-307 | a run in which a client is refused for lack of room while nobody has joined |
| Roster.BroadcastReachesTheOthers | Assignment_2/server_lib.c:204-221 | a broadcast reaches every other listed socket exactly once, never its origin, and no one else |
| Roster.MessageIsForwarded | Assignment_2/server_lib.c:288-295 | a SEND makes the server write the text, under the sender's name, to every other listed client, once each, and nothing else |
| Roster.IdleIsTold | Assignment_2/server_lib.c:282-286 | an IDLE makes the server tell every other client, once each, who is idle, and nothing else |
| Roster.LeaveIsTold | Assignment_2/server_lib.c:269-277 | a disconnect makes the server tell every other client, once each, who has left, and nothing else |
| Roster.JoinIsAnswered | Assignment_2/server_lib.c:297-327 | a JOIN is answered by the ACK with the number of the others and all names as they are then, and every other client is told; or by the NAK for the reason that applies, the cap first, and nobody else is told |
| Roster.ConnectIsSilent | Assignment_2/server_lib.c:260-263 | nothing is written for a new connection |
| Roster.RunConcat | Assignment_2/server.c:28-41 | what a run writes and where it ends is what its parts do, one after the other |
| ChatServers.PassEventsAre | Assignment_2/server_lib.c:265-330 | a listed client leaves in a pass exactly if its socket is closed, and joins, sends or idles exactly if that is the message that was read; nothing else happens, and all of it in the order of the list |
| ChatServers.Server.AppendNode | Assignment_2/server_lib.c:26-51 | the new node is at the end of the chain with an empty name |
| ChatServers.Server.RemoveNode | Assignment_2/server_lib.c:188-200 | exactly the given node is unlinked, and its own next pointer stays |
| ChatServers.Server.IsDuplicateName | Assignment_2/server_lib.c:223-233 | true if and only if a listed client has the name |
| ChatServers.Server.ClientCount | Assignment_2/server_lib.c:236-244 | the number of listed clients |
| ChatServers.Server.GetUsernames | Assignment_2/server_lib.c:176-185 | the names of all listed clients in order |
| ChatServers.Server.MsgBroadcast | Assignment_2/server_lib.c:204-221 | the loop writes exactly the roster's broadcast |
| ChatServers.Server.Join | Assignment_2/server_lib.c:297-327 | list and messages after a JOIN are those of the roster machine |
| ChatServers.Server.Leave | Assignment_2/server_lib.c:269-277 | list and messages after a leave are those of the roster machine |
| ChatServers.Server.Pass | Assignment_2/server_lib.c:265-330 | a pass handles every node that is listed at its start exactly once, whatever is unlinked on the way |
| ChatServers.Server.MsgRouter | Assignment_2/server_lib.c:247-331 | one call is a run of the roster machine: the new connection, and then one event at most for each listed socket; no client whose socket is closed is listed afterwards |
| ChatServers.Server.Serve | Assignment_2/server.c:28-41 | any number of calls is a run of the roster machine and keeps its invariant |

## Left out

- Upload.NetasciiUploadIsExactIff: leaves open an encoding of more than 65535 full blocks that also has a block ending in CR, where lost and doubled bytes may cancel out, as BeyondLimit.ExactBeyondLimit shows they can.
- Upload: establishing a transfer (the write request itself, its repetition, port numbers as transfer identifiers).
- WriteServer.WrqHandler: datagrams shorter than four bytes, for which the code reads bytes of an earlier one and computes a negative length, and errors of recvfrom and sendto.
- ReadServer.RrqHandler: datagrams shorter than four bytes, for which the code reads bytes of an earlier one, and errors of recvfrom and sendto.
- Packets.ParseDataPacket: memcpy over overlapping ranges is taken as a copy from the left, byte by byte; C leaves it undefined.
- parse_trail_buf, error packets, file opening and the fork per request: the mode is an input of the handlers, and each transfer starts with fresh static variables, as it does in its own process.
- CacheQueues.CacheQueue.Dequeue: records which nodes are freed; the record of a freed node is not overwritten.
- ProxyInvariant.ResponseReadKeepsInv: is about the machine's records, of freed nodes as well; ProxyMemory says when a node is freed.
- ProxyInvariant.ResponseWrittenKeepsInv: is about the machine's records; what a send from a freed buffer writes is not modelled.
- ProxyInvariant.RequestReadKeepsInv: holds for any parsed request; Proxies.Proxy.ClientReadHandler ties it to the buffer.
- Proxies.Proxy.ClientReadHandler: a request that parse_request has no bound for (a header line without a space, a first line of less than 13 characters) is taken as not parsed; C leaves it undefined.
- Proxies.Proxy.ServerWriteHandler: the bytes of the request on the wire; those of a conditional GET are not those of the buffer, while their number is.
- Proxies.Proxy.ServerReadHandler: recv errors; the date and whether the answer is a 304 are inputs, since parse_response, which goes on tokenizing into the body, is not part of this model.
- Proxies.Proxy.RecvResponse: the date and whether the answer is a 304 are inputs, for the same reason.
- Proxies.Proxy.ClientWriteHandler: what a send from a freed buffer writes; ProxyMemory.UsesFreedIff says when it happens.
- Proxies.Proxy.CacheSend: the bytes of a conditional GET, and what a send from a freed buffer writes.
- EventLoop.ServePass: takes the saved node as the next one after client_write_handler too; the code stays on the node, which that handler may have freed.
- Service.ClientIsServedIff: one send for each visit, after which the cursor moves on, as above; the code, which stays on the node, goes on sending to it in the same pass.
- Progress.ReadyClientIsClosed: is about passes with one send each, for the same reason.
- EventLoop.RunProxy: select itself, its timeouts and errors; any set of sockets may be ready in a pass, which includes what select reports.
- Relay.Receive: the end of the header, which is in the first read, and Content-Length are inputs. A first read longer than the body leads to a negative length, which the model reports as an overrun.
- Urls.ParseRequest: writing beyond the arrays; Urls.UrlFitsIff says when nothing of that kind happens.
- max_client, count_client, the get_filename helper and all printing in Assignment_4.
- ChatServers.Server.Leave: after a disconnect the code goes on with the stale buffer of an earlier message; the model has the leave as its own step.
- Roster: the SBCP message layout, names longer than 15 bytes, the size of the name buffer, and the client with its idle timer. The name of a new node is empty.
- Assignment_1, Simulation_1, scripts and Makefiles: no hard property.
