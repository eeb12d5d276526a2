# tinyproxy in Dafny

tinyproxy is a multi-threaded layer-4 proxy: the main thread accepts TCP and Unix stream clients
and receives datagrams, hands them to worker threads, and the workers move bytes between clients
and upstream servers. This project models the parts of it in which something can go wrong over
time or between functions, and proves what must hold on every run and for every input.

Protocols are state machines whose events are the lock sections, system calls and callbacks of the
code; a run is any sequence of enabled events, so statements about runs cover every interleaving.
What libevent and the kernel may do in one event is written in the `Enabled` predicates; the three
hypotheses about whole runs, `NoSendFailed`, `Punctual` and `QuietDrain`, are named in the theorems that
need them. Code
that works in place (linked lists, connection flags, buffers, parsers with an advancing index) is
also written as classes and methods with loops, each proved against the function or the protocol
state that the run theorems are about.

| file | what it models |
|---|---|
| `WorkerProtocol`, `WorkerQueue`, `ProgramLifecycle`, `Descriptors`, `Teardown` | hand-off queue and wake-up socket of a worker; its linked list; the whole program with descriptor ownership, where each descriptor goes, and the end of the teardown |
| `StreamConn`, `StreamEvents`, `StreamRuns`, `IdleTimer`, `StreamConnection`, `EndToEnd` | one stream connection: buffers, back-pressure, half-close, idle timer, PROXY header |
| `SniffParser`, `SniffGrammar`, `SniffUnambiguous`, `SniffPeek`, `SniffRuns` | the server-name sniffer, a grammar of ClientHello records, peeking over time, and what is found on runs of a connection |
| `DatagramTable`, `DatagramClients`, `DatagramRoute` | the UDP client table as a map, as a linked list, and over whole runs |
| `ProxyV2`, `Checksum`, `Bytes` | PROXY protocol version 2 headers and the Internet checksum |
| `CText`, `CharBuffer`, `EndpointText`, `RouteLine`, `RouteParser`, `RouteRoundTrip`, `RouteGrammar`, `ConfigLoader`, `Options` | the configuration language, a grammar of its lines, and its in-place parser |

## Assumptions about the environment

- A non-blocking `send` on the notify socket that would block finds unread bytes there. A send may
  also fail otherwise; the code only logs that, and `FailedSendStrandsMessage` shows that the
  wake-up guarantee can then fail. `SleepsThroughIff` says exactly when: the socket was silent at the
  failed send, and no later send or take made up for it (`missed`). The other theorems ask for
  no such failure on the run (`NoSendFailed`), or for `missed` to be unset.
- A receive on that socket returns at most what is there, or fails; the worker's callback is entered
  only while the socket is readable.
- One read of a stream side delivers 1 to `STREAM_IO_CHUNK_SIZE` bytes, only while its reading is
  enabled, and its callback runs at once. The upstream side connects once, delivers no bytes and no
  end of file before that, and no more bytes after a reported end of file or error.
- The kernel takes bytes from the front of an output buffer, only while writing is enabled and, for
  the upstream side, connected. The write callback runs when the buffer has become empty. The theorems
  allow it at other times too, which is more than libevent does with its default write low-water mark
  of 0, which the code leaves alone.
- A bufferevent with reading and writing both off reports no event.
- Timers do not fire early. The upper bound of the idle timer is stated for an event loop that runs a
  due timer at most `late` after it is due (`Punctual`).
- `unsigned long` has 64 bits and characters are bytes of the C locale.

## Where the code differs from what one would expect

- `datagram_raw_send_udp_ipv4` stores the value of `checksum16` without `htons`: on a little-endian
  host the header that is handed to sendto verifies exactly when its words sum to a multiple of 257
  (`HostOrderStoreVerifiesIff`, `SentHeaderVerifiesIff`); `SentHeaderFails` is one that does not. A
  kernel that fills in the checksum of such packets itself hides this.
- A ClientHello split over read callbacks is not put together, because the callback moves the bytes
  away after peeking. What is found on every run is stated exactly (`NameOnEveryRunIff`,
  `SplitHelloIsMissed`); `SplitHelloWitness` is a run on which the name is missed.
- The client's write side is shut down once on every run in which no client write callback during the
  drain finds output below the resume mark (`HalfClosedOnce`), as the default low-water mark ensures.
  Such a callback, and nothing else, would re-enable upstream reading while closing (`ReenabledIff`), and an
  end of file reported after that would shut down again (`SecondIff`): a second time, as
  `HalfCloseCanRepeat` shows for such an environment, but never a third (`MemoryOfAConnection`).
- `parse_port` accepts signs, and takes negative numbers modulo 2^64 (`ParsePortIff`, `NegativePort`).
- Handing a client to a worker that is stopping closes its descriptor twice
  (`HandOffClosesTwiceIffStopping`); no run of the program does so, because the listeners are closed
  before the workers are stopped.
- `endpoint_to_string` is a printer for internet endpoints only: those are read back exactly if the
  buffer held the whole text. A path is printed with its kind in front and is read back only when the
  buffer cuts that text to the path by accident, as with the path "unix:" and a buffer of 6; a builtin
  never is (`ReadBackIff`, `CutPathIsReadBack`). The logger's buffer of 256 characters is too small for
  some accepted hosts (`LoggedInFullIff`, `LongestHostIsCut`).

## Model

| member | source | states |
|---|---|---|
| `WorkerProtocol.StepKeepsInv` | src/worker.c:16-95 | every lock section, send, receive, take, process, check, stop, join and free event keeps conservation of messages, the agreement of the two life cycles, and the wake-up invariant |
| `WorkerProtocol.RunKeepsInv` | src/worker.c:281-403 | the same over every interleaving of events |
| `WorkerProtocol.RunHistoryOfFailure` | src/worker.c:390-400 | the failure flag of a run is set exactly if some send of the run failed other than by blocking |
| `WorkerProtocol.NoLostWakeup` | src/worker.c:362-403 | in every run without a failed send, whatever sends were dropped as would-block: when no producer is between unlock and send, queued work or a stop request means a readable socket or a worker still before its take or its check |
| `WorkerProtocol.SleepsThroughIff` | src/worker.c:390-400 | on every run, whatever sends failed: a waiting worker with work or a stop request finds a silent socket exactly if a failed send found it silent and no later send or take made up for it |
| `WorkerProtocol.SleepingMeansDone` | src/worker.c:493-511 | a worker asleep on a silent socket has processed every accepted message and is not asked to stop |
| `WorkerProtocol.FailedSendStrandsMessage` | src/worker.c:390-400 | a send that fails for another reason leaves a queued message with a sleeping worker |
| `WorkerProtocol.FifoOnEveryRun` | src/worker.c:281-293 | on every run the accepted messages in lock order are processed, released, current batch and pending, concatenated |
| `WorkerProtocol.DisposedOfOnce` | src/worker.c:318-335 | after worker_free the message at each position of the accepted order was processed once or released once, and which |
| `WorkerProtocol.AcceptedUntilStop` | src/worker.c:362-388 | on every run the messages handed in before the first stop are accepted, in order, and those after it are refused, in order |
| `WorkerProtocol.StepSpendsWork` | src/worker.c:256-269 | once stopping, each event of the worker thread uses up work, and only a send adds one unit |
| `WorkerProtocol.StopIsPrompt` | src/worker.c:256-279 | after worker_stop the worker thread performs at most its remaining work plus one event per send, on every continuation |
| `WorkerProtocol.StopNeverHangs` | src/worker.c:271-279 | until it has exited, a notified stopping worker always has an enabled event, so worker_join returns |
| `WorkerProtocol.StepServes` | src/worker.c:281-293 | each worker event brings the k-th accepted message closer; enqueues behind it do not push it back |
| `WorkerProtocol.EveryMessageIsServed` | src/worker.c:281-293 | producers cannot starve a message: after enough worker events the k-th accepted message has been processed, as the k-th |
| `WorkerQueue.Queue.EnqueueMsg` | src/worker.c:362-388 | the head/tail list stays a chain of distinct live messages disjoint from the taken batch, gains the message at its end, and shows the protocol's next state; a stopping worker's list is unchanged and the message is freed |
| `WorkerQueue.Queue.SetStopping` | src/worker.c:256-264 | the flag section of worker_stop is the protocol's stop event |
| `WorkerQueue.Queue.TakePending` | src/worker.c:82-95 | the whole list becomes the batch, head and tail become null, and the protocol's take is shown |
| `WorkerQueue.Queue.ProcessNext` | src/worker.c:281-293 | one turn of the walk: the first message is processed and freed, the cursor moves to its successor read beforehand |
| `WorkerQueue.Queue.ReleaseNext` | src/worker.c:318-335 | one turn of worker_free's walk, likewise |
| `WorkerQueue.Queue.EnqueueMeanwhile` | src/worker.c:362-388 | a message queued during a walk leaves the batch, what was processed and the other messages alone |
| `WorkerQueue.Queue.ProcessPending` | src/worker.c:281-293 | for every order of the walk's turns and producers' lock sections: the taken messages are processed in order and freed once, one per turn until none is left, and what is queued meanwhile is pending, in order |
| `ProgramLifecycle.StepKeepsHolders` | src/worker.c:118-140 | every event of the program keeps the number of holders of each accepted descriptor, except that accepting a client creates one |
| `ProgramLifecycle.RunKeepsHolders` | src/stream_listener.c:26-54 | on every run each accepted descriptor has one holder and others none |
| `ProgramLifecycle.OneOwnerOnEveryRun` | src/stream_conn.c:475-498 | every accepted descriptor is with accept_cb, one queued or taken message, or one connection, or was closed once; never closed twice |
| `Descriptors.ConnectionsStep` | src/stream_conn.c:475-498 | a connection gets a descriptor exactly when a worker adopts the message that carries it, and loses it exactly when it is freed |
| `Descriptors.ClosesStep` | src/worker.c:295-316 | closesocket is called exactly at a failed accept, a failed adoption, a freed connection, a message released by worker_free, and twice at a hand-off to a stopping worker |
| `Descriptors.AdoptedOnEveryRun` | src/stream_conn.c:475-498 | on every run a descriptor is adopted at most once and closed at most once, and is with a connection exactly if it was adopted and not freed since |
| `ProgramLifecycle.RunKeepsSync` | src/tinyproxy.c:311-327 | at each point of main's teardown the phase, stop flag and pending notifications of every worker are what main relies on |
| `ProgramLifecycle.NothingQueuedAtExit` | src/tinyproxy.c:325-327 | when the pool is freed every accepted descriptor was closed once or belongs to the connection that adopted it |
| `Descriptors.AtExit` | src/tinyproxy.c:311-327 | at exit one of these events has closed each descriptor, unless it is with the connection that adopted it |
| `ProgramLifecycle.JoinNeverHangs` | src/worker_pool.c:83-94 | while main joins, it can go on, or else the very worker it waits for can |
| `ProgramLifecycle.TeardownNeverHangs` | src/tinyproxy.c:311-327 | in every reachable state before the end main has an enabled event of its own, or joins a worker that has one |
| `Teardown.StepSpends` | src/tinyproxy.c:316-327 | after the listeners are closed every event of main, and of the worker it joins, lowers a measure over main and the pool, and no event raises it |
| `Teardown.TeardownEnds` | src/worker_pool.c:70-110 | on every run main and the joined workers perform at most as many events as the measure says when the listeners close, so main returns |
| `StreamConn.AdoptEstablishes` | src/stream_conn.c:525-623 | adoption with a header establishes all invariants, with client reading off |
| `StreamConn.StepKeepsExact` | src/stream_pipe.c:20-39 | every read, write, callback and event keeps: header and client bytes equal bytes sent upstream and upstream output; upstream bytes equal bytes sent to the client and client output |
| `StreamConn.StepKeepsInv` | src/stream_pipe.c:41-154 | every event keeps the buffer bounds, the phase flags, the no-wedge condition and drain-before-shutdown |
| `StreamConn.RunKeepsInv` | src/stream_conn.c:233-402 | the same over every run |
| `StreamEvents.FreedIff` | src/stream_conn.c:233-402 | an event frees the connection exactly if it is a client timeout, error or end of file, an upstream timeout, an upstream error with nothing pending for the client, an upstream event without meaning, or a timer that finds the counter unmoved |
| `StreamEvents.EndDrains` | src/stream_conn.c:347-402 | any other upstream error or end of file leaves the connection closing, with all pending bytes kept and the upstream side off |
| `StreamEvents.HalfClosedIff` | src/stream_conn.c:176-231 | the write side is shut down exactly when the last pending byte goes out during the drain, or at an upstream end of file with nothing pending |
| `StreamEvents.ClientReadsIff` | src/stream_pipe.c:41-50 | client reading is paused exactly by a read that fills the upstream output to 256 KiB, and resumed exactly by a write callback below 128 KiB, the connect or the half-close |
| `StreamEvents.UpstreamReadsIff` | src/stream_pipe.c:79-126 | the same for upstream reading, which the end of the upstream side turns off |
| `StreamEvents.ConnectedIff` | src/stream_conn.c:314-321 | the upstream side counts as connected exactly from the connect on |
| `StreamRuns.ExactOnEveryRun` | src/stream_pipe.c:62-77 | in every reachable state, freed or not, nothing is lost, duplicated or reordered, and the header comes first |
| `StreamRuns.PeersSeePrefixes` | src/stream_conn.c:314-321 | over a whole run each peer receives a prefix of the header and what the other side's read events delivered |
| `StreamRuns.RunReceives` | src/stream_pipe.c:20-39 | the recorded input is the concatenation of the delivered bytes |
| `StreamRuns.RunRecordsChunks` | src/stream_pipe.c:34-39 | the inputs of the client read callbacks, joined, are the client's bytes |
| `StreamRuns.BoundedOnEveryRun` | src/route.h:14-16 | client output is below high water plus a chunk, below high water while upstream reading is on; upstream output the same, plus one chunk per finish_client_write; no such call before closing |
| `StreamRuns.MemoryOfAConnection` | src/stream_conn.c:204-231 | on every run finish_client_write is called at most twice and both outputs together stay below six chunks |
| `StreamRuns.ReenabledIff` | src/stream_pipe.c:117-126 | while closing, upstream reading is re-enabled exactly by a client write callback that finds some output below the resume mark |
| `StreamRuns.SecondIff` | src/stream_conn.c:347-402 | after one half-close a second one happens exactly on an end of file alone, reported while upstream reading is on |
| `StreamRuns.HalfClosedOnce` | src/stream_conn.c:204-231 | on every run without such a callback during the drain the write side is shut down at most once and upstream reading stays off while closing |
| `StreamRuns.HalfCloseCanRepeat` | src/stream_pipe.c:117-126 | for an environment that makes such a callback, the bound of two is reached |
| `StreamRuns.NeverWedged` | src/stream_pipe.c:91-154 | connected and not closing, a paused reader implies a non-empty opposite output whose writing is enabled |
| `StreamRuns.EmptyClientResumes` | src/stream_pipe.c:106-126 | draining the client output is a run that resumes a paused upstream, or shuts the client's write side down if closing |
| `StreamRuns.EmptyUpstreamResumes` | src/stream_pipe.c:144-153 | draining the upstream output is a run that resumes a paused client |
| `StreamRuns.DrainBeforeHalfClose` | src/stream_conn.c:176-231 | on every run, once the client's write side is shut down it has been given every byte ever read from upstream, and none follows |
| `StreamRuns.EndIsFollowedByHalfClose` | src/stream_conn.c:347-402 | a closing live connection has been half-closed, or still drains with writing enabled |
| `IdleTimer.StepOfTimer` | src/stream_conn.c:59-148 | what each kind of event does to the timer: reads touch, the timer restarts or frees, everything else leaves it alone, frees or starts it |
| `IdleTimer.RunKeepsCounts` | src/stream_conn.h:23-26 | on every run the two counters differ by the read callbacks since the timer was set, modulo 2^64 |
| `IdleTimer.FreesIffCounterUnmoved` | src/stream_conn.c:84-132 | the timer frees the connection exactly if the number of read callbacks since it was set is a multiple of 2^64 |
| `IdleTimer.FreesOnlyIdle` | src/stream_conn.c:84-132 | freed at f with timeout T: no read callback of the whole run came after f - T |
| `IdleTimer.RunKeepsArmed` | src/stream_conn.c:314-321 | once the upstream side is connected with T > 0 and the timer made, the timer runs until the connection is freed |
| `IdleTimer.FreesWithinTwoTimeouts` | src/stream_conn.c:59-73 | such a connection that reads nothing after time t is freed by t + 2T, plus the lateness of two timers |
| `StreamConnection.Connection.ClientBytesArrive` | src/stream_pipe.c:9-51 | a client read and its callback in place are the event of the run theorems, and keep `Valid`: inputs moved on, bytes exact, buffer bounds, phases, no wedge, drain before shutdown; the sniffer, if on, has peeked at exactly this input |
| `StreamConnection.Connection.UpstreamBytesArrive` | src/stream_pipe.c:53-89 | the same for an upstream read |
| `StreamConnection.Connection.ClientTakesBytes` | src/stream_pipe.c:91-127 | the same when the kernel takes client output and the write callback runs on the empty buffer |
| `StreamConnection.Connection.UpstreamTakesBytes` | src/stream_pipe.c:129-154 | the same for upstream output |
| `StreamConnection.Connection.ClientIsWritable` | src/stream_pipe.c:91-127 | the same for a further client write callback, which may finish a drain or resume the upstream side |
| `StreamConnection.Connection.UpstreamIsWritable` | src/stream_pipe.c:129-154 | the same for a further upstream write callback |
| `StreamConnection.Connection.ClientReports` | src/stream_conn.c:233-303 | the same for timeout, error and end of file of the client |
| `StreamConnection.Connection.UpstreamReports` | src/stream_conn.c:305-402 | the same for connect, timeout, error and end of file of the upstream side, with drain and half-close |
| `StreamConnection.Connection.TimerFires` | src/stream_conn.c:84-132 | the same for the idle timer |
| `StreamConnection.Serve` | src/worker.c:142-150 | a connection object adopted with a header and driven by any run: header and client bytes equal what was sent upstream and its upstream buffer, the same backwards, both buffers below six chunks while it lives, and nothing left in the client buffer once half-closed; its sniffer holds what the chunk theorems say |
| `EndToEnd.ServerSeesClient` | src/stream_conn.c:565-616 | at every point of every run, a server that decodes what it received either waits for the rest of the header or has the client's address and port and a prefix of exactly the client's bytes |
| `SniffParser.ValidSniName` | src/stream_sniff.c:21-46 | true exactly for 1 to 253 letters, digits, '-' and '.' |
| `SniffParser.ParseNameList` | src/stream_sniff.c:251-291 | the loop over the name list computes the first host_name's verdict and reads only inside the list |
| `SniffParser.ParseExtensionList` | src/stream_sniff.c:214-301 | the loop over the extensions stops at the first server_name extension with its verdict |
| `SniffParser.ParseServerNameExtension` | src/stream_sniff.c:239-249 | the list length must fill the extension |
| `SniffParser.ParseSniFromClientHello` | src/stream_sniff.c:48-302 | the in-place parser returns the status of the nested description, reads only inside the given length, and writes name and terminator exactly when PARSED |
| `SniffParser.NamesFromIs` | src/stream_sniff.c:251-291 | reading a list at an index of the buffer is parsing the slice |
| `SniffParser.ExtensionsFromIs` | src/stream_sniff.c:214-235 | the same for extensions |
| `SniffParser.HelloShift` | src/stream_sniff.c:148-212 | the ClientHello verdict depends only on the bytes, not on where they lie in the buffer |
| `SniffGrammar.ParsedIff` | src/stream_sniff.c:48-302 | PARSED with name n exactly if the buffer starts with a record of the grammar whose first server_name extension's first host_name is n, valid, and fits |
| `SniffGrammar.MissingIff` | src/stream_sniff.c:251-302 | MISSING exactly if the ClientHello of the grammar has no server_name extension, or its first one lists no host_name (up to two trailing bytes) |
| `SniffGrammar.NameTooLongIff` | src/stream_sniff.c:270-288 | NAME_TOO_LONG exactly if the carried name exceeds 253 bytes, or is valid and exceeds the destination |
| `SniffGrammar.NotTlsIff` | src/stream_sniff.c:80-132 | NOT_TLS exactly for another content type or a complete record with another handshake message |
| `SniffGrammar.ParseErrorIff` | src/stream_sniff.c:48-302 | PARSE_ERROR exactly for what is complete, of the right type, lacks no name and carries none that is valid or too long |
| `SniffUnambiguous.NameIsUnique` | src/stream_sniff.c:206-302 | the grammar is unambiguous: a buffer carries at most one name, valid or not, and does not also lack one |
| `SniffGrammar.HelloRoundTrip` | fuzz/devtools/gen_seeds_stream_sniff.py:14-86 | every ClientHello, with any session id, cipher suites, compression methods and extensions around a server_name extension, is parsed to its host name |
| `SniffGrammar.HelloWithoutServerName` | fuzz/devtools/gen_seeds_stream_sniff.py:14-86 | without a server_name extension, or without extensions, it is MISSING |
| `SniffPeek.StreamSniff.PeekClientInput` | src/stream_sniff.c:304-380 | the peek in place is the peek of the run theorems: window of 8192 bytes, TRUNCATED at the limit, no effect once done |
| `SniffPeek.PeekKeepsCoherent` | src/stream_sniff.c:304-380 | every peek keeps: done exactly with a terminal status, NUL-terminated name, PARSED only with a valid name; done is absorbing |
| `SniffPeek.LogShowsNameIffParsed` | src/stream_sniff.c:382-412 | after any peeks the logged text is a valid host name exactly if the status is PARSED |
| `SniffPeek.LogShowsPlaceholderIff` | src/stream_sniff.c:382-412 | the logged text is a placeholder exactly for its status |
| `SniffPeek.VerdictIsStable` | src/stream_sniff.c:68-108 | any status but NEED_MORE on a prefix is the status, with the same name, of every extension |
| `SniffPeek.GrowingPeeks` | fuzz/fuzz_stream_sniff.c:10-40 | after any sequence of peeks at a growing buffer the verdict is that of one peek at its last content |
| `SniffPeek.WholeHelloIsFound` | src/stream_pipe.c:34-39 | a name in the first chunk is found whatever follows |
| `SniffPeek.VerdictOfChunks` | src/stream_sniff.c:304-380 | for any cutting of the stream into callbacks, the verdict is that of the first chunk that is not a waiting prefix, taken alone |
| `SniffPeek.NameIsFoundIff` | src/stream_sniff.c:304-380 | a name is found exactly if that chunk carries it by itself |
| `SniffPeek.PrefixWaitsIff` | src/stream_sniff.c:98-108 | a first chunk of a stream that begins with a parsed hello waits exactly if it is shorter than the record, and otherwise gives the name |
| `SniffRuns.FirstDecidedOnEveryRun` | src/stream_pipe.c:34-39 | the verdict theorem for every run of a connection and its read events |
| `SniffRuns.NameOnEveryRunIff` | src/stream_pipe.c:34-39 | on every run, exactly when a name is found |
| `SniffRuns.PeekStatusIff` | src/stream_sniff.c:304-380 | each status that a peek records is recorded exactly for the inputs that the grammar gives it to, in the first 8192 bytes; TRUNCATED exactly for 8192 incomplete bytes |
| `SniffRuns.StatusOnEveryRunIff` | src/stream_sniff.c:304-380 | on every run the recorded status is the one the first deciding chunk deserves by the grammar |
| `SniffRuns.LogOnEveryRunIff` | docs/tinyproxy.conf.5.scd:33 | on every run the log shows a placeholder exactly if the deciding chunk deserves that verdict by the grammar |
| `SniffRuns.UndecidedOnEveryRun` | src/stream_sniff.c:304-345 | while no chunk decides the status says whether any byte has come |
| `SniffRuns.SplitHelloIsMissed` | src/stream_pipe.c:34-39 | on every run whose client stream begins with a hello: its name is found if the first callback got the whole record; otherwise exactly what the later chunks carry by themselves |
| `SniffRuns.SplitRunMisses` | src/stream_pipe.c:34-39 | every hello sent as its first byte and the rest ends NOT_TLS, while one peek gives PARSED |
| `SniffRuns.SplitHelloWitness` | src/stream_pipe.c:34-39 | such a hello and the run, so the callbacks are not chunk-independent |
| `DatagramTable.FindIsLookup` | src/datagram_client.c:81-93 | find_datagram_client is lookup in the map from addresses to clients |
| `DatagramTable.ExpireIsRestriction` | src/datagram_client.c:52-79 | expiry removes exactly the map entries older than the timeout |
| `DatagramTable.ExpireByAge` | src/datagram_client.c:59-66 | exactly the clients seen at most the timeout ago stay, and exactly the others are freed |
| `DatagramTable.ExpireKeepsDistinct` | src/datagram_client.c:52-79 | expiry keeps addresses distinct |
| `DatagramTable.ExpireKeepsOrder` | src/datagram_client.c:52-79 | the clients that stay keep their order |
| `DatagramTable.GetOrCreateIsUpdate` | src/datagram_listener.c:59-81 | get-or-create updates the map at the packet's address only, keeps an existing client's socket, and leaves the table alone if creation fails |
| `DatagramClients.RouteClients.FindClient` | src/datagram_client.c:81-93 | the walk over the linked list finds the first client with the address, or null |
| `DatagramClients.RouteClients.PushFront` | src/datagram_client.c:403-404 | the new client is linked in at the front and the list stays a chain of distinct live clients |
| `DatagramClients.RouteClients.GetOrCreateClient` | src/datagram_listener.c:59-81 | in place, the table function of the map theorem, and the client it returns |
| `DatagramClients.RouteClients.Unlink` | src/datagram_client.c:59-74 | writing through the link that leads to a client removes exactly it, and frees it once |
| `DatagramClients.RouteClients.CleanupIdle` | src/datagram_client.c:52-79 | the in-place loop leaves exactly the recent clients in order and frees exactly the others, each once |
| `DatagramClients.RouteClients.FreeAll` | src/datagram_route.c:170-179 | the teardown loop leaves an empty list and frees every client once, in order |
| `DatagramRoute.StepKeepsInv` | src/datagram_listener.c:83-108 | every packet, expiry, reply and teardown keeps addresses distinct and one holder per socket |
| `DatagramRoute.TableOnEveryRun` | src/datagram_client.c:35-93 | at every lock release of every run: distinct addresses, and every opened socket is with one live client or was closed once |
| `DatagramRoute.NothingOpenAfterFree` | src/datagram_client.c:14-33 | after the route is freed every socket ever opened has been closed once |
| `DatagramRoute.RepliesReachTheSender` | src/datagram_client.c:272-308 | on every run a reply that arrived on a socket goes to the address all packets forwarded on that socket came from |
| `DatagramRoute.EveryReplyIsReturned` | src/datagram_client.c:310-353 | on every run the j-th reply sent belongs to the socket of the j-th datagram that arrived and goes to the address all packets on that socket came from, of which there is at least one |
| `DatagramRoute.EveryPacketIsForwarded` | src/datagram_listener.c:83-108 | on every run exactly one datagram is sent for each packet whose sender has a client afterwards, on that client's socket, in order |
| `DatagramRoute.PacketUpdatesTable` | src/datagram_listener.c:59-81 | after a packet its sender has a client exactly if it had one or one could be created; sockets and other senders stay |
| `DatagramRoute.CleanupUpdatesTable` | src/datagram_client.c:52-79 | a clean-up keeps exactly the map entries seen at most the timeout ago |
| `ProxyV2.ProxyV2Build` | src/proxy_proto_v2.c:14-122 | which error for which input; on success exactly the header's bytes and length, nothing behind them touched; on failure neither buffer nor length changes |
| `ProxyV2.BuildsIff` | src/proxy_proto_v2.c:14-122 | a header is built exactly for a complete pair of one internet family, a stream or datagram transport and a buffer that holds it |
| `ProxyV2.BuildErrorIff` | src/proxy_proto_v2.c:14-122 | exactly which input gives which error |
| `ProxyV2.DecodeInvertsBuild` | tests/support.py:121-146 | decoding header and payload per section 2.2 of the PROXY protocol specification gives back addresses, ports, transport and payload |
| `ProxyV2.ProperPrefixIsIncomplete` | src/proxy_proto_v2.c:14-122 | no proper prefix of a header decodes to anything but incomplete |
| `ProxyV2.SendPayload` | src/datagram_client.c:212-264 | sends the packet that the round trip is about, or fails for other than IPv4, for short addresses and for more than 65535 bytes, in that order |
| `ProxyV2.DatagramRoundTrip` | src/datagram_client.c:229-264 | a header is sent exactly for IPv4 addresses and 28 bytes plus payload within 65535, and the receiver gets addresses and payload back |
| `ProxyV2.DatagramErrorIff` | src/datagram_client.c:229-264 | exactly which datagram gives which error |
| `ProxyV2.PlainDatagram` | src/datagram_client.c:220-227 | without the option exactly the payload is sent |
| `Checksum.AddWords` | src/datagram_raw.c:14-28 | the 32-bit accumulator holds the word sum modulo 2^32 |
| `Checksum.FoldCarries` | src/datagram_raw.c:29-31 | the fold ends, with the end-around-carry fold of its argument |
| `Checksum.Checksum16` | src/datagram_raw.c:14-34 | up to 131074 bytes the result is the Internet checksum; beyond, that of the wrapped sum |
| `Checksum.CongruentToSum` | src/datagram_raw.c:14-34 | checksum and word sum add up to a multiple of 65535 |
| `Checksum.VerifiesAfterStore` | src/datagram_raw.c:14-34 | stored big-endian in a zeroed even slot of any buffer, it makes the checksum zero |
| `Checksum.ZeroIffSumsToOnes` | src/datagram_raw.c:14-34 | the checksum is zero exactly if the word sum is a positive multiple of 65535 |
| `Checksum.HostOrderStoreVerifiesIff` | src/datagram_raw.c:158-158 | stored in little-endian host order the buffer verifies exactly if its words sum to a multiple of 257 |
| `Checksum.SentHeaderVerifiesIff` | src/datagram_raw.c:140-158 | which headers of the raw sender verify, in terms of length and addresses |
| `Checksum.SentHeaderFails` | src/datagram_raw.c:140-158 | a packet from 10.0.0.1 to 10.0.0.2 whose header does not |
| `Checksum.OverflowsBeyondBound` | src/datagram_raw.c:14-34 | the bound is sharp: 131076 bytes of ones give another value |
| `CText.TrimmedIff` | src/file_conf.c:16-33 | trimming gives exactly the piece without white space at its ends that has only white space around it |
| `CText.TokensOfSpelling` | src/file_conf.c:429-437 | words free of delimiters, however spaced, are the tokens |
| `CText.TokensSpell` | src/file_conf.c:429-437 | every text is spelled by its own tokens and delimiters between them |
| `CharBuffer.Trim` | src/file_conf.c:16-33 | trim in place: the returned string is the trimmed one, and nothing outside the old string is written |
| `CharBuffer.StrTok` | src/file_conf.c:429-437 | strtok_r in place: first token, rest, and nothing outside the remaining string written |
| `EndpointText.ParsePortIff` | src/file_conf.c:35-48 | a port is accepted exactly if the whole text is a number 1 to 65535, or minus a number that is such a port modulo 2^64 |
| `EndpointText.NegativePort` | src/file_conf.c:35-48 | every port has a negative spelling that is accepted |
| `EndpointText.SplitHostPortIff` | src/file_conf.c:87-160 | exactly the bracketed and the one-colon spellings are accepted, with that host, port and family |
| `EndpointText.ParseEndpointIff` | src/file_conf.c:341-417 | for each protocol exactly which texts are accepted, and as which endpoint |
| `EndpointText.RoundTripIff` | src/endpoint.c:19-26 | an accepted internet endpoint printed into a buffer is read back as the same endpoint exactly if the buffer held the whole text |
| `EndpointText.PathReadBackIff` | src/endpoint.c:28-42 | a path endpoint is read back exactly if the buffer cuts the text to the length of the path and leaves the path |
| `EndpointText.CutPathIsReadBack` | src/endpoint.c:28-30 | the path "unix:" in a buffer of 6 is such a case |
| `EndpointText.BuiltinIsNotReadBack` | src/endpoint.c:36-38 | no builtin is read back from any buffer |
| `EndpointText.ReadBackIff` | src/endpoint.c:19-42 | for every accepted endpoint and every buffer, exactly when the printed form is read back as the same endpoint |
| `EndpointText.LoggedInFullIff` | src/klog.c:88-94 | exactly which accepted internet endpoints the logger prints in full |
| `EndpointText.LongestHostIsCut` | src/klog.c:88-94 | a host of 255 characters never is |
| `EndpointText.WildcardShorthand` | src/file_conf.c:149-152 | ":port" is "0.0.0.0:port" |
| `RouteLine.ParsePositiveIntIff` | src/file_conf.c:218-239 | accepted exactly if the whole text is a number 1 to INT_MAX without a minus sign |
| `RouteParser.ParseOption` | src/file_conf.c:282-320 | an option token trimmed, cut at '=' and applied in place has the effect of the option function, and writes only inside the token |
| `RouteParser.ParseOptionsInPlace` | src/file_conf.c:241-331 | the comma-separated options applied in order, in place |
| `RouteParser.SplitFields` | src/file_conf.c:429-441 | at most 32 fields, each still intact in the buffer after all were found |
| `RouteParser.ParseRouteLine` | src/file_conf.c:419-487 | the in-place line parser returns exactly the route the line's fields describe, or rejects |
| `RouteRoundTrip.SettingIsSet` | src/file_conf.c:297-318 | the text of each setting sets exactly that option |
| `RouteRoundTrip.OptionsRoundTrip` | src/file_conf.c:241-331 | for all options a line can ask for, their text makes them out of the defaults |
| `RouteRoundTrip.EndpointRoundTrip` | src/file_conf.c:341-417 | every accepted endpoint field has a canonical field with the same endpoint |
| `RouteRoundTrip.LineRoundTrip` | src/file_conf.c:419-487 | the canonical line of an accepted line's route is accepted with the same route |
| `RouteGrammar.SettingOfIff` | src/file_conf.c:282-320 | a token is read as a setting exactly if it spells it by the option grammar, so anything else is refused |
| `RouteGrammar.OptionApplies` | src/file_conf.c:277-324 | an accepted token sets exactly what it spells, whatever was set before |
| `RouteGrammar.TokensApplyIff` | src/file_conf.c:277-330 | options are accepted exactly if every token spells a setting, and are set in turn |
| `RouteGrammar.RouteIff` | src/file_conf.c:419-487 | a line is accepted as a route exactly if it has at most 32 fields, optional "listen", protocol and endpoint twice, and then only settings, over the defaults |
| `RouteGrammar.PlainRoute` | src/file_conf.c:333-339 | a line without options has idle timeout 60, connect timeout 5 and everything else off |
| `ConfigLoader.LinesRebuild` | src/file_conf.c:506-519 | the scanned lines hold no newline and rebuild the text up to a final newline |
| `ConfigLoader.LinesOfUnlines` | src/file_conf.c:506-519 | any newline-free lines are the lines of the text they make |
| `ConfigLoader.LoadsIffNoOffence` | src/file_conf.c:489-615 | a text loads exactly if it has no first offending line, and that line and its error are unique |
| `ConfigLoader.RoutesAreTheLines` | src/file_conf.c:578-608 | the routes are exactly those of the route lines with their line numbers |
| `ConfigLoader.LineNumbersIncrease` | src/file_conf.c:506-507 | below 2^32 lines, line numbers strictly increase |
| `RouteLine.ConflictIffSameEndpoint` | src/file_conf.c:50-71 | accepted listen endpoints conflict exactly if they are the same endpoint up to the brackets around the host; files and builtins never do |
| `ConfigLoader.UncommentIs` | src/file_conf.c:541-555 | trimming, cutting at '#' and trimming again is trimming the text before the first '#' |
| `ConfigLoader.MeaningIff` | src/file_conf.c:521-588 | a line is too long exactly from 512 characters on, blank exactly if nothing is left before the first '#', and otherwise wrong or a route exactly as the route grammar says |
| `ConfigLoader.CrlfIsLf` | src/file_conf.c:521-524 | a CRLF line means what the LF line means |
| `ConfigLoader.OffenceMeans` | src/file_conf.c:532-606 | each error code of a failed load says exactly what is wrong with the first offending line |
| `ConfigLoader.FindConflictingRoute` | src/file_conf.c:73-85 | the first route with the same listen endpoint, or -1 exactly if there is none |
| `ConfigLoader.ReadLine` | src/file_conf.c:537-588 | a line copied to the buffer, cut at NUL and '#', trimmed and parsed in place gives its meaning |
| `ConfigLoader.LoadRoutesFromText` | src/file_conf.c:489-615 | success exactly if every line is blank, comment or a route and no two routes listen on the same endpoint, with all routes in order; otherwise no routes and the first offending line's error |

## Left out

- libevent, sockets, threads and mutexes themselves: they are environment steps, with the assumptions above.
- Binding of listeners, signals, keepalive, connect and close timeouts as such (they appear as events), environment variables, logging.
- Failure paths of main before the event loop; a run starts when the pool is started and nothing is queued.
- Builtin and file upstreams, and round-robin selection of workers: only simple members.
- Windows and BSD branches, raw packets beyond the checksum, address conversion by inet_pton and inet_ntop.
- Lifetime of a UDP client whose callback runs on one worker while another expires it: callbacks are atomic steps on live clients.
- Descriptor and socket numbers are not reused in the model: one stands for one opened descriptor.
- Failures of evbuffer_copyout, realloc and calloc inside the connection and the loader.
- Conflict checking of `-L` routes: main does not do it. Route indices above INT_MAX in find_conflicting_route are not modelled.
- Closing of descriptors and freeing of memory by free_worker_msg is split: the list model records that a message is freed once, the program model which descriptors are closed.
- Full delivery after the client closes: the code frees the connection at once, so prefixes are claimed.
- `SniffGrammar.HelloRoundTrip`: the hello is alone in one record, as the code handles only that.
- `IdleTimer.FreesWithinTwoTimeouts`: before the upstream side is connected, and when the timer could not be made, there is no idle timer and no bound.
- `IdleTimer.FreesOnlyIdle`: assumes fewer than 2^64 read callbacks since the timer was set, without which the counter comes round.
- The text of route_options_str: it prints `proxy_v2=true`, which the parser rejects.
