# ftserver: transfer session, wire protocol, byte buffers and time client

ftserver takes FITS files from telescope cameras. A camera client connects, announces a file with one
text line, waits for status 1, sends the bytes, and waits for status 2. On the server an io thread reads
blocks and posts messages, a message thread runs the handlers, and one writer thread stores the files of
all connections. This project models that machinery in Dafny and proves what it keeps over whole runs.

## How it is laid out

| file | content |
|---|---|
| `Text.dfy` | character classes, C strings, trimming, splitting, `stoi` |
| `AsciiProtocol.dfy` | printing and resolving protocol lines, as functions |
| `AsciiRoundTrip.dfy` | print/resolve round trips |
| `AsciiText.dfy` | the text of printed lines, letter by letter |
| `AsciiLines.dfy` | the meaning of every line, whoever printed it |
| `AsciiDispatch.dfy` | the branch trees for message types and object keywords against flat references |
| `AsciiNumbers.dfy` | the exceptions thrown by the numbers of the kinds whose fields are not kept |
| `AsciiCoder.dfy` | the coder object: ten output slots, string building, resolving loops |
| `TcpClient.dfy` | search, consuming read, receive ring, send ring, line extraction |
| `MessageQueue.dfy` | the two-priority queue and its dispatch loop |
| `FileTransfer.dfy` | the file buffer as a value, header and status lines, handler decisions |
| `TransferSystem.dfy` | the whole system as a state machine over thread steps |
| `TransferSafety.dfy`, `TransferTheorems.dfy` | the invariant of a connection and of the system; the theorems over all runs |
| `TransferProgress.dfy` | the measure, the exact progress condition, the race that loses a header |
| `FileReceiver.dfy` | the receiver's objects; every handler takes the step the system describes |
| `FileWriter.dfy` | the writer's queue and its retry loop |
| `NtpClient.dfy` | time packets, offset and delay, lifetime of an offset, clock correction |

Imperative source is a class whose methods are proved against specification functions; the same functions
drive the system's state machine. So the theorems over runs are about the code's own steps:
`FileReceiver.HandleNext` and `FileReceiver.NetworkReceive` end in the state that `OnDequeue` and `OnBlock` give.

## The main results

- **End-to-end safety** (`EndToEndSafety`). Any number of clients, any chunking, interleaving of threads and
  moment of a break: what a receiver hands to the writer is a prefix of what its client offers, what the
  writer takes of it is that prefix less the files refused while `running_` was false, and the disk holds the
  first files taken, in order and byte for byte. Every status 2 a client has read is a file handed over. No FAILURE,
  and no step that uses a null pointer, writes outside a buffer or lets an exception escape.
- **Ownership** (`QueuedBuffersStay`, `DataArrivesPrivately`, `ReuseIsSafe`). A queued or held buffer is never
  written; a header reuses only a solely held buffer of the same size.
- **Shutdown order** (`ShutdownOrder`). The close message is posted at most once and last; after it is handled
  nothing touches the connection, and no complete file is left behind.
- **Progress, exactly** (`ProgressExactly`). Without breaks and stops a connection takes at most a fixed number of
  steps; when it can take no more, all files were handed over **if and only if** no block arrived while
  `state_` was COMPLETE. Atomic handlers exclude that (`AtomicHandlersLoseNothing`); the threads as they are do
  not (`HeaderLossIsReachable`, `WaitsForEver`): with two or more files a header can be ignored, and its client then
  waits for status 1 in every continuation without a break or stop.
- **Codec round trips** (`RoundTripExactly`, `ResolvePrintResolve`). A message comes back with every field if and
  only if its strings are clean and a track's `line2` does not end in punctuation. Whatever a line looked like,
  resolving, printing and resolving again changes only `utc`.
- **Every line** (`EveryLine`, `FileInfoLine`, `FileStatLine`, `TrackLine`, `NumbersLine`). Whoever printed it and however it
  is spaced or spelt, a line's keyword has the last non-empty value given to it, trimmed, or its default; which
  lines throw, and what, is stated for all 21 kinds.
- **Printed text** (`BaseIsText`, `IdsPrinted`, `StatusTexts`). The lines sent, letter by letter.
- **Dispatch** (`DispatchExactly`, `ObjectIsFlat`). The first-letter trees are flat lookups except for capital
  first letters, which find nothing.
- **Buffers** (`SendRingConserves`, `FailedWriteStalls`, `RingIsSuffix`, `ChunkingIndependence`, `WriteAccepts`,
  `RingKeepsNewest`, `FirstMatchUnique`, `SlotLifetime`). A failed asynchronous write stalls the send ring for good.
- **Writer** (`MonitorConserves`, `SavesCounted`, `FailsForGood`, `FiveFailures`, `TwoFailuresCanStop`). Nothing is lost or
  reordered, whatever fails, and every successful pass saves the next file. The comment at src/FileWritter.cpp:93 says that a success clears the error count; the code skips
  that when the queue has drained. So after a success the sixth failure in a row stops the writer, or an earlier
  one, down to the second.
- **Time** (`ClockBound`, `BoundBeforeRollover`, `RolloverBreaksTheOffset`, `OffsetError`, `CorrectedError`, `ValidExactly`).
  The offset is within half the round trip plus 3/(2(2^32-1)) s of the true one if and only if the era numbers cancel.
  With both clocks in one era that is `JAN_1970 + tv_sec < 2^32`: past the rollover of 2036 the client is wrong by
  2^31 s per era, and `RolloverBreaksTheOffset` gives the first second at which it is.

## Assumptions

- A client sends a header line in one block, nothing before status 1, then exactly the announced number of bytes
  (more than none) in blocks of 1 to 1500, nothing before status 2, and no heartbeats. Its strings are clean and
  free of newlines, and the header line fits its 1024-byte slot.
- The network is FIFO in each direction and may break at any moment, losing any suffix under way to the server.
  The server's writes of status lines are total.
- `NewFile` is atomic with respect to the writer's steps, and the condition wait returns only on a non-empty queue.
- A time tag is any clean non-empty text that ends in a digit.
- Bytes are characters; `new char[n]` holds arbitrary bytes; a save succeeds or fails arbitrarily.
- `fileptr_.use_count()` is the number of sessions, queue entries and local pointers that refer to the buffer; the
  system computes it, the receiver object takes it as an argument.

## Model

| member | source | states |
|---|---|---|
| `TransferTheorems.EndToEndSafety` | src/FileReceiver.cpp:57-137 | in every reachable state, for any number of sessions, chunkings, interleavings and breaks: files handed over are a prefix of the client's, one per status 2 read and at most one more; the writer's log is that prefix less refusals, the disk is a prefix of the log byte for byte, no step faults and there is no FAILURE |
| `TransferTheorems.ShutdownOrder` | src/FileReceiver.cpp:57-64 | NetworkClose is posted at most once and last; after `tcpptr_.reset()` no handler or callback runs and a buffer still being filled misses bytes; at most two messages are ever pending |
| `TransferTheorems.QueuedBuffersStay` | src/FileReceiver.cpp:88-98 | no step of any session changes a buffer that is in the writer's queue or held by `save_first` |
| `TransferTheorems.DataArrivesPrivately` | src/FileWritter.h:54-58 | when a block is stored its bytes fit, and the buffer is not queued, not held and no other session's |
| `TransferTheorems.ReuseIsSafe` | src/FileReceiver.cpp:88-98 | a header keeps the buffer if and only if its use count is 1 and its size equal, else it allocates; either way the buffer is unshared and empty for the announced file |
| `TransferTheorems.WriterEventKeeps` | src/FileWritter.cpp:101-130 | the separate steps of `save_first` (read front, write, pop, release) keep the system invariant: saved files then queue are the files taken |
| `TransferTheorems.SessionEventKeeps` | src/FileReceiver.cpp:57-137 | every step of a session keeps the invariant of the whole system |
| `TransferTheorems.RunKeeps` | src/FileReceiver.cpp:57-137 | the invariant holds after every run, with handlers split at their assignments |
| `TransferTheorems.SessionFacts` | src/MessageQueue.cpp:46-60 | a session never has more than two messages pending, so the 1024-entry queue cannot block the io thread; FAILURE is never taken |
| `TransferSafety.SessionStep` | src/FileReceiver.cpp:57-137 | each step moves one connection to the expected phase and touches the heap in one of four ways |
| `TransferSafety.DeliverStreaming` | src/FileReceiver.cpp:59-62 | a data block fits, extends the received prefix, and posts RECEIVE_COMPLETE exactly when the file is whole |
| `TransferSafety.DequeueHeader` | src/FileReceiver.cpp:76-101 | the posted header is the client's, is read inside the block, and prepares a buffer for exactly the announced file |
| `TransferSafety.DequeueComplete` | src/FileReceiver.cpp:116-119 | the buffer given to NewFile holds the current file, every byte of it |
| `TransferProgress.ProgressExactly` | src/FileReceiver.cpp:57-137 | without interruption the number of steps is bounded, and a connection that can do nothing has handed over all files if and only if no block met COMPLETE |
| `TransferProgress.StepCountsDown` | src/FileReceiver.cpp:57-137 | every uninterrupted step lowers the measure over files left, phase, bytes unsent, blocks under way and the pending last assignment |
| `TransferProgress.NextEventEnabled` | src/FileReceiver.cpp:76-137 | while a client has files left and no header was ignored, some step is possible |
| `TransferProgress.AtomicHandlersLoseNothing` | src/FileReceiver.cpp:116-127 | handlers that end before the next block is read never let a block meet COMPLETE |
| `TransferProgress.HeaderCanBeLost` | src/FileReceiver.cpp:116-127 | from every undisturbed reachable state in which the next header can still meet the COMPLETE of the current file, some continuation ignores it, and the client waits for status 1 in every uninterrupted continuation of that |
| `TransferProgress.WaitsForEver` | src/FileReceiver.cpp:57-64 | once a block met COMPLETE, the client awaits status 1 in every later uninterrupted state, the files handed over are a proper prefix, and when the handler has ended nothing of the connection can happen |
| `TransferProgress.HeaderLossIsReachable` | src/FileReceiver.cpp:116-127 | every client with two or more files can be left waiting for status 1 for ever by the interleaving alone, with files never handed over |
| `FileTransfer.HeaderFraming` | src/FileReceiver.cpp:76-84 | for a block holding a printed header, Lookup, Read, the NUL at `pos` and Resolve yield exactly the sender's fields and stay inside the block |
| `FileTransfer.StatusFraming` | src/FileReceiver.cpp:129-137 | a printed status line tells the client that status, for every 32-bit value |
| `FileTransfer.StatusTexts` | src/FileReceiver.cpp:129-137 | the four status lines: `filestat utc=`, the tag, `,status=` and the digit 0, 1, 2 or 3 |
| `FileTransfer.HeaderHasOneNewline` | src/AsciiProtocol.cpp:371-382 | a printed header of newline-free fields has its only newline at the end |
| `FileTransfer.HeaderLineText` | src/AsciiProtocol.cpp:371-382 | a header line letter by letter |
| `FileTransfer.ShortHeaderIsSendable` | src/AsciiProtocol.cpp:53-73 | a header whose strings take at most 947 characters fits its 1024-byte slot |
| `FileTransfer.SomeFileIsSendable` | src/AsciiProtocol.cpp:371-382 | the assumptions on clients can be met, for data of any size |
| `FileReceiver.FileInfo.DataArrive` | src/FileWritter.h:54-58 | the bytes land behind those received, all others stay, and the result says whether the file is complete |
| `FileReceiver.FileInfo.constructor` | src/FileWritter.h:41-45 | a buffer of the announced size with nothing received |
| `FileReceiver.FileReceiver.constructor` | src/FileReceiver.cpp:18-23 | a receiver in WAITING with its own buffers and no connection |
| `FileReceiver.FileReceiver.CoupleNetwork` | src/FileReceiver.cpp:29-51 | after registration and start the object shows a fresh session of the system; without a message queue it says so and does not take the connection |
| `FileReceiver.FileReceiver.NetworkReceive` | src/FileReceiver.cpp:57-64 | the callback ends in the state of OnBlock, and posts exactly the close on an error, a header while WAITING, and the completion when the bytes are there |
| `FileReceiver.FileReceiver.TakeBlock` | src/FileReceiver.cpp:60-61 | Read and DataArrive append exactly the visible block to the file |
| `FileReceiver.FileReceiver.FetchLine` | src/FileReceiver.cpp:77-84 | the text passed to Resolve is the header the specification reads from the block |
| `FileReceiver.FileReceiver.PrepareFile` | src/FileReceiver.cpp:88-98 | the buffer is kept if and only if it is solely held and of the announced size, and carries the header's metadata with nothing received |
| `FileReceiver.FileReceiver.AcceptHeader` | src/FileReceiver.cpp:86-101 | a fileinfo ends in the system's prepared and announced state; a negative size throws and a shared buffer is untouched |
| `FileReceiver.FileReceiver.RefuseHeader` | src/FileReceiver.cpp:102-109 | every other outcome leaves the receiver as it is, closes the connection for an unknown type, or throws |
| `FileReceiver.FileReceiver.OnNetworkReceive` | src/FileReceiver.cpp:76-110 | the handler ends in the state of BeginHeader run to its end: fileinfo, ignored message, closed connection; exactly the numbers and sizes that throw leave it with an exception |
| `FileReceiver.FileReceiver.OnNetworkClose` | src/FileReceiver.cpp:112-114 | the connection is released and nothing else changes |
| `FileReceiver.FileReceiver.OnReceiveComplete` | src/FileReceiver.cpp:116-127 | a file with as many bytes as announced is queued with the writer if it is running and status 2 is sent, else status 3, and the state is WAITING again |
| `FileReceiver.FileReceiver.NotifyStatus` | src/FileReceiver.cpp:129-137 | the state is set and exactly the text of that status goes to the wire |
| `FileReceiver.FileReceiver.HandleNext` | src/MessageQueue.cpp:79-91 | one turn of the message loop with the handler registered for the message ends in the state of the system's OnDequeue; QUIT ends the loop |
| `FileReceiver.QuitFirst` | src/MessageQueue.cpp:62-69 | once Stop has sent QUIT it is the next message, ahead of all posts |
| `FileReceiver.PostFirst` | src/MessageQueue.cpp:79-91 | otherwise the next message is the oldest post |
| `FileReceiver.HandlerOf` | src/FileReceiver.cpp:66-74 | each of the three messages has its one handler and every other id has none |
| `AsciiRoundTrip.RoundTripExactly` | src/AsciiProtocol.cpp:371-453 | printing, cutting the newline and resolving gives the message back, time tag refreshed, if and only if it is printable |
| `AsciiRoundTrip.PrintThenResolve` | src/AsciiProtocol.cpp:62-83 | every fileinfo, filestat and track with clean strings comes back with every field, empty strings, omitted ids and every 32-bit integer included |
| `AsciiRoundTrip.ResolvePrintResolve` | src/AsciiProtocol.cpp:394-453 | for every line accepted as fileinfo or filestat, with any spacing, commas, extra `=` parts, duplicate or unknown keys, the printed result resolves to the same message but for `utc` |
| `AsciiRoundTrip.ResolvePrintResolveTrack` | src/AsciiProtocol.cpp:515-528 | the same for track lines, if and only if `line2` does not end in punctuation or space |
| `AsciiRoundTrip.ResolvedIsClean` | src/AsciiProtocol.cpp:85-114 | whatever the line, the strings resolved from it hold no comma, `=` or NUL and no outer whitespace, and the numbers fit an int |
| `AsciiRoundTrip.BodyTokens` | src/AsciiProtocol.cpp:403-407 | the type word and the tokens found in a printed line are the printed pairs, less a trimmed last `=` |
| `AsciiRoundTrip.PairResolves` | src/AsciiProtocol.cpp:85-95 | a printed pair resolves to its keyword and value, or to nothing when the value is empty |
| `AsciiRoundTrip.JoinKvsEnd` | src/AsciiProtocol.h:363-368 | the joined pairs are the comma-separated tokens and what the right-trim removes |
| `AsciiLines.EveryLine` | src/AsciiProtocolBase.h:3-10 | every text is a type word, blanks, and items between runs of commas, each a keyword, a run of `=`, a value and extra parts with any whitespace around the words; so the laws below are about every line |
| `AsciiLines.FileInfoLine` | src/AsciiProtocol.cpp:394-453 | for every fileinfo line, in any spelling and spacing: each string is the last non-empty value given to its keyword, trimmed, or empty; the size is the last one given, or -2^31; the first size that is no number throws |
| `AsciiLines.FileStatLine` | src/AsciiProtocol.cpp:706-717 | the same for the status |
| `AsciiLines.TrackLine` | src/AsciiProtocol.cpp:515-528 | the same for the three strings of a track |
| `AsciiLines.NullLine` | src/AsciiProtocol.cpp:409-452 | a line gives a null pointer if and only if its type word is none of the 21 names or is shadowed |
| `AsciiLines.NumbersLine` | src/AsciiProtocol.cpp:470-688 | for every line of the other 18 kinds: it throws exactly when a keyword of that kind's literal list of numbers is given something else, by the first such item; otherwise it resolves with its pairs in order |
| `AsciiLines.FirstBreakExists` | src/AsciiProtocol.cpp:470-688 | there is such an exception if and only if some item breaks |
| `AsciiLines.ReadsPlain` | src/AsciiProtocol.cpp:470-688 | which keywords each kind reads as whole and as real numbers, by name |
| `AsciiText.BaseIsText` | src/AsciiProtocol.cpp:75-83 | the base text letter by letter: type word, ` utc=`, the tag, and the ids that are not empty |
| `AsciiText.IdsPrinted` | src/AsciiProtocol.cpp:80-82 | `gid=`, `uid=` and `cid=` occur in the base text if and only if the id is not empty |
| `AsciiText.FileInfoText` | src/AsciiProtocol.cpp:371-382 | a printed fileinfo line letter by letter |
| `AsciiText.FileStatText` | src/AsciiProtocol.cpp:384-392 | a printed filestat line letter by letter |
| `AsciiText.TrackText` | src/AsciiProtocol.cpp:198-207 | a printed track line letter by letter, up to the right-trim |
| `AsciiDispatch.DispatchExactly` | src/AsciiProtocol.cpp:409-442 | the branch tree selects a kind if and only if the type equals its name up to case and does not start with a capital A, F, O, R, S or T |
| `AsciiDispatch.ObjectIsFlat` | src/AsciiProtocol.cpp:633-660 | resolve_object is the last value given to each keyword, deaf to keywords starting with E, I or P in capitals; it throws exactly when a number it can see is none |
| `AsciiDispatch.NamesApart` | src/AsciiProtocol.cpp:410-442 | no type word equals two of the 21 names up to case |
| `AsciiCoder.SlotLifetime` | src/AsciiProtocol.cpp:67-73 | a returned text stays through the next nine calls and is replaced by the tenth's |
| `AsciiCoder.EmitKeeps` | src/AsciiProtocol.cpp:67-73 | a write stays inside its own 1024-byte slot |
| `AsciiCoder.Coder.OutputCompacted` | src/AsciiProtocol.cpp:67-73 | the text, a newline and a NUL are in the current slot, the next slot is up, `n` is the length, all else unchanged |
| `AsciiCoder.Coder.CompactBase` | src/AsciiProtocol.cpp:75-83 | exactly the text ` utc=`, the tag, and `gid=`, `uid=`, `cid=` for the ids that are not empty |
| `AsciiCoder.Coder.CompactMessage` | src/AsciiProtocol.cpp:371-392 | the returned slot reads as the message's line, whose text `AsciiText` gives letter by letter |
| `AsciiCoder.Coder.ResolveKvArray` | src/AsciiProtocol.cpp:97-114 | common items go to the base, last one wins, all others are kept in order; what that means for a line is stated by the `AsciiLines` rows |
| `AsciiCoder.Coder.ResolveFileInfo` | src/AsciiProtocol.cpp:690-704 | the last value of each keyword, INT_MIN for a missing size; the first number that is none throws |
| `AsciiCoder.Coder.ResolveFileStat` | src/AsciiProtocol.cpp:706-717 | the last status, INT_MIN when missing; the first number that is none throws |
| `AsciiCoder.Coder.ResolveTrack` | src/AsciiProtocol.cpp:515-528 | the last value of each of the three strings |
| `AsciiCoder.Coder.SplitLine` | src/AsciiProtocol.cpp:403-407 | type word up to the first blank, tokens after all blanks |
| `AsciiCoder.Coder.Resolve` | src/AsciiProtocol.cpp:394-453 | the object's loops compute the outcome of the functional parser, with null and the exceptions of all 21 kinds; what that outcome is for every line is stated by the `AsciiLines` rows |
| `AsciiCoder.Coder.CheckNumbers` | src/AsciiProtocol.cpp:470-688 | the loops of the kinds whose fields are not kept throw exactly the first error of their numeric pairs |
| `AsciiCoder.ErrorStays` | src/AsciiProtocol.cpp:694-701 | the first number that throws decides the outcome |
| `AsciiNumbers.FirstErrorExactly` | src/AsciiProtocol.cpp:470-688 | a message throws if and only if some numeric pair of its kind is no number, and the first such pair decides |
| `AsciiNumbers.ObjectThrowsExactly` | src/AsciiProtocol.cpp:633-660 | for object messages this agrees with the model that keeps the fields |
| `Text.SplitJoin` | src/AsciiProtocol.cpp:407 | splitting undoes joining for non-empty tokens free of the separator |
| `Text.SplitKeepsLack` | src/AsciiProtocol.cpp:91 | splitting brings in no character |
| `Text.StoiIntText` | src/AsciiProtocol.cpp:700 | reading a printed number gives the number, for every 32-bit int |
| `Text.StoiReads` | src/AsciiProtocol.cpp:700 | whitespace, a sign, leading zeroes, digits and any rest give the number if it fits 32 bits, and are out of range if not |
| `Text.CharacterClasses` | src/AsciiProtocol.cpp:62-65 | the characters that count as whitespace, punctuation and digits |
| `Text.EqualUpToCase` | src/AsciiProtocol.cpp:103-106 | equality of keywords and type words is equality up to the case of ASCII letters |
| `Text.StoiRejects` | src/AsciiProtocol.cpp:700 | text without a digit after the whitespace and the sign is an invalid argument |
| `TcpClient.Client.Lookup` | src/tcpasio.cpp:117-135 | the least position from `from` at which the whole flag lies in the valid bytes, -1 exactly when there is none, in both buffer modes |
| `TcpClient.FirstMatchUnique` | src/tcpasio.cpp:117-135 | the first occurrence is the only position with these properties |
| `TcpClient.Client.Read` | src/tcpasio.cpp:137-154 | how many bytes, which, what stays of the target, and what leaves the ring: from the front, not from `from` |
| `TcpClient.Client.Write` | src/tcpasio.cpp:156-171 | buffered: all bytes if they fit, else as many as do, join the ring's end, and a write of the ring starts exactly on an empty ring; unbuffered: write_some takes what the socket has room for |
| `TcpClient.Client.HandleWrite` | src/tcpasio.cpp:193-217 | without an error the bytes reported leave the ring and the rest is put in flight; with one the ring stays and nothing is in flight |
| `TcpClient.Client.HandleRead` | src/tcpasio.cpp:181-191 | buffered: the ring holds exactly the newest bytes that fit; unbuffered: the block replaces the last |
| `TcpClient.Client.UseBuffer` | src/tcpasio.cpp:70-82 | switching the rings on gives ten packets of room, switching them off clears them, no change does nothing |
| `TcpClient.Client.Close` | src/tcpasio.cpp:57-61 | the socket is closed, and the error value is that of closing it, or zero if it was closed already |
| `TcpClient.RingKeepsNewest` | src/tcpasio.cpp:184-186 | byte by byte, the ring ends with exactly the newest bytes that fit |
| `TcpClient.SendRingConserves` | src/tcpasio.cpp:156-217 | over every run, failed writes included: sent plus ring is what Write accepted, and the one write in flight heads the ring; one is in flight exactly when the ring is not empty if and only if no write has failed |
| `TcpClient.WriteAccepts` | src/tcpasio.cpp:156-171 | in every run a Write that finds room for all its bytes accepts them all, and one that does not leaves the ring full of the first of them |
| `TcpClient.FailedWriteStalls` | src/tcpasio.cpp:193-200 | in every run nothing is sent after the first failed write, no completion follows, and the unsent bytes stay in the ring |
| `TcpClient.ChunkingIndependence` | src/tcpasio.cpp:117-154 | without overflow the lines taken and the ring always make up the stream, and a drained ring has yielded all its lines, for every chunking |
| `TcpClient.StreamConserves` | src/tcpasio.cpp:137-154 | reads followed by the ring equal the received stream |
| `TcpClient.RingIsSuffix` | src/tcpasio.cpp:181-191 | with or without overflow the ring is always the end of what was received, at most its capacity of it |
| `MessageQueue.DeliveryInOrder` | src/MessageQueue.cpp:32-44 | in every run handled posts are a prefix of the posts and handled sends of the sends, in order; nothing is handled after QUIT |
| `MessageQueue.SendsFirst` | src/MessageQueue.cpp:39-44 | a pending send overtakes every pending post |
| `MessageQueue.InsertOrder` | src/MessageQueue.cpp:32-44 | queueing keeps priority order and joins the end of its own priority |
| `MessageQueue.QuitBeforePosts` | src/MessageQueue.cpp:62-69 | after Stop the thread handles the pending sends, then QUIT, and no post |
| `MessageQueue.ThroughQuitIs` | src/MessageQueue.cpp:79-91 | the loop takes everything through the first QUIT, or all |
| `MessageQueue.CallsExactly` | src/MessageQueue.cpp:86-90 | each message taken calls every slot registered for it once, in order, with its own parameters, and the messages follow each other as they were taken |
| `MessageQueue.Queue.RegisterMessage` | src/MessageQueue.cpp:24-30 | a slot is added exactly for an id in the table's range |
| `MessageQueue.Queue.Start` | src/MessageQueue.cpp:46-60 | a new queue unless one is running, or a false result and no change when none can be created |
| `MessageQueue.Queue.PostMessage` | src/MessageQueue.cpp:32-37 | one low-priority entry joins a running queue |
| `MessageQueue.Queue.SendMessage` | src/MessageQueue.cpp:39-44 | one high-priority entry joins a running queue |
| `MessageQueue.Queue.ReceiveOne` | src/MessageQueue.cpp:87-89 | the head is taken, and every slot registered for its id is called once, in order, if the id is in range |
| `MessageQueue.Queue.ThreadMessage` | src/MessageQueue.cpp:79-91 | the messages handled and left over, and one callback per registered slot for each message, by index |
| `MessageQueue.Queue.Stop` | src/MessageQueue.cpp:62-69 | pending sends and QUIT are handled with their callbacks, posts are dropped with the queue |
| `FileWriter.MonitorConserves` | src/FileWritter.cpp:78-99 | whatever arrives and fails: the error count stays within 0 and 5, and saved files followed by the queue are the files that came, in order and each once |
| `FileWriter.OnePassSaves` | src/FileWritter.cpp:86-96 | a pass over a non-empty queue saves exactly its front if and only if the save succeeds |
| `FileWriter.SavesCounted` | src/FileWritter.cpp:78-99 | over every run as many files are saved as passes were successful, and they are the first of those queued and arrived, in order |
| `FileWriter.BacklogIsWritten` | src/FileWritter.cpp:78-99 | while every save succeeds, n passes write the first n files of a backlog and leave the rest |
| `FileWriter.FailsForGood` | src/FileWritter.cpp:78-99 | once saves fail for good the loop makes an exactly known number of attempts, at most six, then stops with no queued file lost or reordered |
| `FileWriter.FiveFailures` | src/FileWritter.cpp:87-95 | after a success five failures in a row are survived if and only if the queue was not drained or the count is zero |
| `FileWriter.TwoFailuresCanStop` | src/FileWritter.cpp:87-95 | a run in which two failures after a success stop the writer |
| `FileWriter.Writer.NewFile` | src/FileWritter.cpp:60-68 | a file joins the queue exactly while running |
| `FileWriter.Writer.SaveFirst` | src/FileWritter.cpp:101-130 | the front is saved and popped, or nothing changes |
| `FileWriter.Writer.OnePass` | src/FileWritter.cpp:86-96 | one pass of the loop: the front is saved exactly when the save succeeds, and the error count with its skipped reset on an empty queue |
| `FileWriter.Writer.ThreadMonitor` | src/FileWritter.cpp:78-99 | the loop against any script of arrivals and outcomes; `running_` ends false exactly at five errors |
| `NtpClient.ClockBound` | src/NTPClient.cpp:110-118 | the offset is within half the round trip plus 3/(2(2^32-1)) s of the true one if and only if the eras of the stamps cancel |
| `NtpClient.BoundBeforeRollover` | src/NTPClient.cpp:112-117 | with the server in the local clock's era the bound holds if and only if the local clock is before the rollover of 2036 |
| `NtpClient.RolloverBreaksTheOffset` | src/NTPClient.cpp:112-117 | at the first second past the rollover two equal clocks and no delay give an offset of exactly -2^31 s |
| `NtpClient.OffsetError` | src/NTPClient.cpp:110-118 | the error is half the difference of the two ways, 2^31 s per era not cancelled, and a coding error in 0..3/(2(2^32-1)) |
| `NtpClient.DelayError` | src/NTPClient.cpp:118 | the computed delay is the round trip, plus 2^32 s per era not cancelled, up to the coding error, for all eras |
| `NtpClient.LocalStampError` | src/NTPClient.cpp:149-153 | the request's stamp is the local time less the cut-off fraction and the wrapped eras |
| `NtpClient.ExchangeRoundTrip` | src/NTPClient.cpp:179-197 | the client decodes its own stamp, the server's header and its two stamps from a reply |
| `NtpClient.HeadBytes` | src/NTPClient.cpp:183-191 | every header field by its byte positions and sign |
| `NtpClient.AnswerIsObserved` | src/NTPClient.cpp:156-203 | a reply laid over the request decodes to the exchange the error bounds speak of |
| `NtpClient.RequestInPlace` | src/NTPClient.cpp:135-154 | five overlapping eight-byte copies leave a well-formed request in 48 bytes |
| `NtpClient.RequestDecoded` | src/NTPClient.cpp:135-154 | a server reads version 4, client mode, poll 4, precision -6, both roots one second, and the time of sending |
| `NtpClient.CorrectedError` | src/NTPClient.cpp:72-77 | the clock is set within a microsecond, towards 1970, and its microseconds are legal exactly under the stated condition, always from 1970 on |
| `NtpClient.SynchronisedClock` | src/NTPClient.cpp:68-81 | after a correction the clock is within the exchange's bound plus a microsecond of the server's, whenever the eras cancel |
| `NtpClient.ValidExactly` | src/NTPClient.cpp:110-130 | in every run an offset is usable if and only if it is the latest answer's, at most four failed polls old and not used for a correction |
| `NtpClient.StandingIsSmall` | src/NTPClient.cpp:117-122 | with automatic correction an offset left standing is smaller than the limit |
| `NtpClient.NtpClient.ConstructPacket` | src/NTPClient.cpp:135-154 | the buffer's first 48 bytes are the request |
| `NtpClient.NtpClient.GetTime` | src/NTPClient.cpp:156-203 | what is decoded from a reply of any length, how validity and failures change, and that a failing socket is closed |
| `NtpClient.NtpClient.SynchClock` | src/NTPClient.cpp:68-81 | the clock is set exactly for a valid offset at or beyond the limit, which is then used up |
| `NtpClient.NtpClient.PollServer` | src/NTPClient.cpp:94-130 | one turn: nothing without a socket, else a new offset and its validity or one more failure, and the correction if enabled |

## Left out

- `TcpClient.Client.Read`: with `from` above 0 in buffered mode the code copies from `from` but erases from the front; the contract says so, and conservation is claimed for reads from 0 only. The overflow of `from + len` is not modelled.
- `FileReceiver.FileReceiver.NotifyStatus`: the socket takes the whole line; an exception of `write_some` on a broken connection is not modelled.
- `FileReceiver.FileReceiver.OnNetworkReceive`: a block without a newline, for which the code writes before its buffer, is a precondition; the system theorems show that it does not occur under the client assumptions. The use count is an argument.
- `FileReceiver.FileReceiver.NetworkReceive`: no null pointer and no overrun is a precondition, shown by the system theorems; the queue must not be full.
- `AsciiCoder.Coder.CompactMessage`: lines longer than a slot are a precondition, as the code does not check. The caller's `utc` is refreshed in place by the code; here the time tag is an argument. Null arguments are not modelled.
- `AsciiCoder.Coder.Resolve`: for the 18 kinds other than fileinfo, filestat and track the key-value list is kept and its values are not stored in fields (object has its own model in `AsciiDispatch`); their exceptions are in the outcome. How `stod` reads text is a parameter. In the system's steps such a message is ignored without its exceptions, since clients send none.
- `AsciiDispatch.ObjectIsFlat`: the reading of `expdur` by `stod` is a parameter.
- `MessageQueue.Queue.Stop`: posts made by other threads during the join are not interleaved in the object; `DeliveryInOrder` covers them.
- `FileWriter.Writer.SaveFirst`: directory and file creation are one boolean; in the object front and pop are one step, in the system they are separate.
- `NtpClient.NtpClient.GetTime`: the reference identifier is not decoded, and the ten-second wait is an outcome without a reply.
- `NtpClient.CorrectedError`: `double` is `real`, so rounding of the sum is not counted.
- Printing and resolving of `double` fields, and the field lists of the other message kinds: limited-precision text has no exact round trip, and the rest would add easy members.
- The overloads of the Compact functions that take field values and print no time tag.
- Input outside the client assumptions: headers split over blocks, several lines in a block, extra bytes, heartbeats.
- That status 2 means the file was saved: it is sent even when `NewFile` rejects the file; `taken` records which were taken.
- The path a file is stored under: `save_first` overwrites `subpath` before a save can fail, so each retry extends it. Files are compared without it.
- The data race on `quenf_` between `NewFile` and the writer: modelled as atomic steps.
- Notification of the data-processing peer and of the database, logging, configuration, daemonising, accepting connections, timers and disk cleaning: input, output and library wrappers.
- Destruction of a receiver (src/FileReceiver.cpp:25-27) while the io thread still holds the bound callback: a stopped session stays in the system's state. "No step faults" speaks of the steps that are modelled.
- Liveness of the writer: no fairness is assumed for its thread.
