# share_it transfer engine: a Dafny model

This project models the file-transfer core of share_it, a React Native app that sends files between two phones. The phones use a TLS connection. The sender splits a file into 8192-byte blocks and announces it with a `file_ack` frame. It then serves one block per `send_chunk_ack` request. The receiver stores each `receive_chunk_ack` block and asks for the next one. At the last block it joins the blocks and writes the file. Before a connection exists, the send screen lists nearby devices from UDP advertisements of the form `tcp://host:port|deviceName`. Tapping a listed device parses that text into a connection request. The screen also opens a QR scanner modal, but in this source the modal is given no scan callback, so a scanned code never reaches that parser.

The model is written in terms of the source's own handlers:

- `Chunking` covers the block-splitting loop of `sendFileAck` and the concatenation in `generateFile`.
- `TransferState` holds the state the provider keeps: the server, the connection flag and peer name, the active outbound chunk set, the inbound chunk store, the sent and received file lists and the two byte counters. It also records three observable effects: the frames written to the socket (`outbox`), the user-visible alerts and the files written to disk.
- `Reassembly` covers `generateFile`.
- `TcpUtils` covers the three per-event handlers `receivedFileAck`, `sendChunkAck` and `receiveChunkAck`.
- `TcpProvider` covers `sendFileAck`, the `startServer` guard, the `data` router on both ends and the `close`/`disconnect` reset.
- `StopAndWait` joins two devices, each running the router, into a network. A round delivers the receiver's requests to the sender and the sender's answers to the receiver. The end-to-end runs are proved over this network.
- `ScanAddress` covers `handleScan`. JavaScript's `replace` with a string pattern, `split` with one separator, array destructuring and `parseInt(_, 10)` are each modelled with their edge cases.
- `Discovery` covers the UDP `message` updater, the tap on a listed device and the listener's mount/unmount effect. The screen's list and the UDP sockets are kept apart: a fresh mount starts an empty list, and a socket left bound after unmount changes no list.

Every handler is one atomic, total function on an immutable state. A step that throws in the source (`Buffer.from(undefined)`, indexing past the blocks, `Buffer.concat` over a hole) leaves the state as it was before that step. JavaScript values are modelled as the code meets them:

- `Option` stands for `undefined`/`null`.
- The byte counter that can become `NaN` is a `Tally`.
- The inbound block array is sparse (`seq<Option<Bytes>>`).
- A key of a JavaScript array is an index only below 2^32 - 1.

The source has two defects in the transfer loop and one in the discovery screen; see "## Findings". Where a defect matters, the model carries both a `Revision.AsWritten` and a `Revision.Corrected` form of the handler. Every property is proved for the code as written, and the corrected forms get their intended properties proved alongside.

Behaviour of the code that looks unintended but is followed here:

- A second announcement while a file is still being sent or received only raises an alert. The active chunk set or chunk store is replaced all the same (src/service/TCPProvider.tsx:191-193, src/service/TCPUtils.tsx:8-10).
- A `send_chunk_ack` with no active chunk set still writes a `receive_chunk_ack` frame with no chunk. It also turns the sent-byte counter into NaN (src/service/TCPUtils.tsx:43-58).
- After the last block the receiver still requests block n (src/service/TCPUtils.tsx:102-111).
- A discovery packet without '|' is not dropped. It is listed under the name `undefined`, and only once (src/screens/SendScreen.tsx:40-59).
- Leaving the send screen does not release the UDP socket (src/screens/SendScreen.tsx:67-80).
- An empty file is announced with zero blocks. The receiver's request for block 0 is dropped by the sender, so the file is never written and the receiver's store stays occupied (`StopAndWait.EmptyFileNeverWritten`).

## Model

| member | source | states |
|---|---|---|
| Chunking.Flatten | src/service/TCPProvider.tsx:251 | `Buffer.concat` joins the blocks in index order, so the first block leads the result (its partner is `ChunksRoundTrip`) |
| Chunking.Chunks | src/service/TCPProvider.tsx:197-207 | the slicing loop yields no block exactly for an empty buffer (the per-block and count properties are the lemmas below) |
| Chunking.ChunkFile | src/service/TCPProvider.tsx:197-207 | the slicing loop produces exactly the successive 8192-byte slices of the buffer, and `totalChunks` is their number |
| Chunking.ChunksRoundTrip | src/service/TCPProvider.tsx:202-207 | joining the blocks in index order gives back the file's bytes, for every length |
| Chunking.ChunksWellSized | src/service/TCPProvider.tsx:197-206 | every block holds 1..8192 bytes and every block but the last is full |
| Chunking.ChunksCount | src/service/TCPProvider.tsx:198-207 | the block count is the ceiling of length / 8192 |
| Chunking.LastChunkSize | src/service/TCPProvider.tsx:203 | the last block holds length mod 8192 bytes, or a full block on an exact multiple |
| Chunking.TwentyThousandBytes | src/service/TCPProvider.tsx:197-207 | a 20000-byte file travels as blocks of 8192, 8192 and 3616 bytes |
| Chunking.EmptyFileHasNoChunks | src/service/TCPProvider.tsx:202 | an empty file produces no blocks |
| TransferState.AddBytes | src/service/TCPUtils.tsx:58 | adding to the sent-byte counter adds exactly the block length, and NaN stays NaN |
| TransferState.AddBytesAssociative | src/service/TCPUtils.tsx:58 | counting two blocks one after the other equals counting their total |
| TransferState.FindIndex | src/service/TCPUtils.tsx:64 | `findIndex` finds no record exactly when no record has the id, and otherwise the first one that does |
| Reassembly.Present | src/service/TCPProvider.tsx:251 | `Buffer.concat` succeeds exactly when no slot is a hole, and then yields the slots' blocks in order |
| Reassembly.MarkReceived | src/service/TCPProvider.tsx:256-266 | only the first received record with the store's id gets the path as `uri` and becomes available; no match leaves the list unchanged |
| Reassembly.GenerateFile | src/service/TCPProvider.tsx:241-273 | a missing store or a store with a hole writes nothing and changes nothing; a complete store writes its blocks under platform path + "/" + name, marks the record and clears the store; the sender side, outbox and alerts are untouched |
| Reassembly.GenerateFileRestoresFile | src/service/TCPProvider.tsx:251-255 | a store holding the sender's blocks for a file writes that file's exact bytes |
| TcpUtils.ReceivedFileAck | src/service/TCPUtils.tsx:6-38 | the descriptor is appended to the received list, the store is replaced by an empty one for it, block 0 is requested, and a pending store only adds an alert |
| TcpUtils.ReadTotalChunks | src/service/TCPUtils.tsx:50 | as written the read of `totalChunk` is always undefined; corrected, it is the stored `totalChunks` |
| TcpUtils.SenderCompletes | src/service/TCPUtils.tsx:60 | the sender's test `chunkIndex + 2 > totalChunks` is never true against undefined, nor before the last index |
| TcpUtils.ReceiverCompletes | src/service/TCPUtils.tsx:102 | the receiver's test `chunkNo + 1 === totalChunks` holds only on an index below the count, and never before the last one |
| TcpUtils.CompletionTestsAgree | src/service/TCPUtils.tsx:60 | on an in-range index, the sender's test `k + 2 > n` and the receiver's test `k + 1 == n` agree |
| TcpUtils.MarkSent | src/service/TCPUtils.tsx:62-69 | only the first sent record with the id becomes available; with no match the list is unchanged |
| TcpUtils.ServeChunk | src/service/TCPUtils.tsx:40-75 | with no chunk set: an alert, a frame with no chunk and a NaN counter; an index outside the blocks changes nothing; an in-range index writes that block and counts its bytes; the receiver side never changes |
| TcpUtils.SendChunkAck | src/service/TCPUtils.tsx:50-71 | as written the completion branch never runs: the chunk set and the sent list are never changed, whatever index is served |
| TcpUtils.SendChunkAckCorrected | src/service/TCPUtils.tsx:60-71 | reading `totalChunks`, the set is dropped exactly when the index is the last one, and then the sent record is marked |
| TcpUtils.StoreChunk | src/service/TCPUtils.tsx:87-88 | assigning at a valid index overwrites inside the array or extends it with holes; other slots are unchanged; a non-index key leaves the elements alone |
| TcpUtils.StoreInto | src/service/TCPUtils.tsx:89-92 | spreading the store keeps its descriptor; spreading a null store gives a store with no descriptor |
| TcpUtils.ReceiveChunkAckOn | src/service/TCPUtils.tsx:77-115 | a present block is stored and counted, a missing one neither; on the last index the store is cleared; the next index is requested unless it was the last one and the handler is corrected |
| TcpUtils.ReceiveChunkAck | src/service/TCPUtils.tsx:85-111 | the block lands at `chunkNo` with every other slot and the descriptor unchanged, and `chunkNo + 1` is requested every time, also after the last block |
| TcpUtils.ReceiveChunkAckOnStores | src/service/TCPUtils.tsx:86-92 | before the last chunk a present block goes into the spread store at array index `chunkNo`, in either revision |
| TcpUtils.ReceiveChunkAckCorrected | src/service/TCPUtils.tsx:102-111 | after the last block nothing more is requested and the store is cleared |
| TcpProvider.RawData | src/service/TCPProvider.tsx:209-215 | the descriptor takes name and size from the document or the image fields and tags the type "file" or ".jpg" |
| TcpProvider.SendFileAck | src/service/TCPProvider.tsx:190-238 | the new chunk set carries the id and blocks that join back to the file, in ceil(len/8192) well-sized blocks; one sent record is appended; a busy sender only alerts; the frame is written only when a socket exists |
| TcpProvider.StartServer | src/service/TCPProvider.tsx:56-110 | starting while a server exists changes nothing; otherwise a server is recorded |
| TcpProvider.Disconnect | src/service/TCPProvider.tsx:159-172 | both lists, the chunk set, the store, the received counter and the connection flag are cleared; the sent counter and peer name stay |
| TcpProvider.Close | src/service/TCPProvider.tsx:85-94 | the close handler's setters followed by `disconnect` leave the same state as `disconnect` alone |
| TcpProvider.DisconnectIdempotent | src/service/TCPProvider.tsx:166-171 | clearing twice is clearing once, and a cleared state is a fixed point |
| TcpProvider.CloseDropsTransfer | src/service/TCPProvider.tsx:141-150 | a transport close mid-transfer leaves no chunk state and no received record, and writes no file |
| TcpProvider.Route | src/service/TCPProvider.tsx:68-83 | `connect` is handled only by the server end; unknown events change nothing; a chunk request never touches the receiver side; a file or chunk frame never touches the sender side |
| StopAndWait.Receive | src/service/TCPProvider.tsx:128-140 | a device handling a frame keeps its role and directory, and only appends to what it has written |
| StopAndWait.Deliver | src/service/TCPProvider.tsx:68-83 | handling frames in order only appends to the device's written frames |
| StopAndWait.AnnounceEstablishes | src/service/TCPProvider.tsx:217-234 | after the announcement the sender holds the file's blocks, the receiver an empty store for its descriptor, and block 0 is requested |
| StopAndWait.AnnounceSender | src/service/TCPProvider.tsx:217-234 | the announcing sender holds the file's blocks, appends one record and writes exactly one `file_ack` frame |
| StopAndWait.AnnounceReceiver | src/service/TCPUtils.tsx:11-33 | the receiver appends the record, opens an empty store for the descriptor and requests block 0 |
| StopAndWait.SenderAnswers | src/service/TCPUtils.tsx:53-58 | the sender answers request j with block j and adds its length to the counter |
| StopAndWait.ReceiverStores | src/service/TCPUtils.tsx:86-111 | before the last block, the receiver stores block j and requests j + 1 |
| StopAndWait.MidRound | src/service/TCPUtils.tsx:53-111 | a round before the last block moves the exchange from block j - 1 to block j |
| StopAndWait.RunToBlock | src/service/TCPUtils.tsx:108-111 | after j rounds the receiver holds blocks 0..j-1 and asks for block j |
| StopAndWait.ReceiveLastBlock | src/service/TCPUtils.tsx:102-106 | the last block completes the store, the joined blocks are written and the store is dropped |
| StopAndWait.ReceiverFinishes | src/service/TCPUtils.tsx:102-111 | the receiver's last round writes the file; as written it emits a request for block n, and corrected it emits nothing |
| StopAndWait.SenderServesLast | src/service/TCPUtils.tsx:50-71 | serving the last block counts it; only the corrected sender then drops the chunk set and marks its record |
| StopAndWait.LastStepSender | src/service/TCPUtils.tsx:53-71 | after the last block's request the sender has counted the whole file, and its chunk set and sent list depend on its revision |
| StopAndWait.LastStepReceiver | src/service/TCPUtils.tsx:86-111 | the last block makes the receiver write the joined blocks, mark its record and drop its store; only as written does it request one more block |
| StopAndWait.FinalRound | src/service/TCPUtils.tsx:60-71 | after n rounds the receiver has written the joined blocks; the sender's chunk set stays as written and is dropped when corrected |
| StopAndWait.LastRound | src/service/TCPProvider.tsx:241-266 | after n rounds from the announcement the receiver has written the file byte for byte and marked its record available |
| StopAndWait.ExtraRequestIgnored | src/service/TCPUtils.tsx:55 | a request one past the blocks of a still-active set is consumed without an answer |
| StopAndWait.TransferAsWritten | src/service/TCPUtils.tsx:50-60 | as written the exchange settles after n + 1 rounds with the file written, but the sender still holds the chunk set and its record is never available |
| StopAndWait.TransferCorrected | src/service/TCPUtils.tsx:60-70 | corrected, the exchange settles after n rounds with the file written, the chunk set dropped and the sent record available |
| StopAndWait.DrainedStep | src/service/TCPUtils.tsx:43-58 | with no chunk set and no store, a request for block k leads to a request for block k + 1 |
| StopAndWait.DrainedAnswer | src/service/TCPUtils.tsx:43-58 | that round raises the no-chunks alert and makes the sent counter NaN |
| StopAndWait.DrainedForever | src/service/TCPUtils.tsx:108-111 | from a drained network every later round asks for the next index |
| StopAndWait.SettlesDrained | src/service/TCPUtils.tsx:60-70 | with only the sender corrected, the completed transfer leaves the network drained with a request for block n |
| StopAndWait.DrainedRequests | src/service/TCPUtils.tsx:108-111 | a drained network asks for one index more each round |
| StopAndWait.FixedSenderOnlyNeverSettles | src/service/TCPUtils.tsx:108-111 | with only the sender corrected, the exchange never settles: m rounds later block n + m is being requested |
| StopAndWait.EmptyFileNeverWritten | src/service/TCPProvider.tsx:202-207 | an empty file is never written and the receiver keeps an empty store, in either revision |
| StopAndWait.MarkReceivedAppended | src/service/TCPProvider.tsx:258-264 | marking a freshly appended record marks exactly that record |
| StopAndWait.MarkSentAppended | src/service/TCPUtils.tsx:64-67 | marking a freshly appended sent record marks exactly that record |
| ScanAddress.IndexFrom | src/screens/SendScreen.tsx:25 | finds the first occurrence of the pattern at or after a position, or reports that there is none |
| ScanAddress.ReplaceFirst | src/screens/SendScreen.tsx:25 | with no occurrence the text is unchanged; otherwise the first occurrence, and only it, is cut out |
| ScanAddress.ReplaceFirstStripsScheme | src/screens/SendScreen.tsx:25 | a leading "tcp://" is removed and anything after it is kept, including a second "tcp://" |
| ScanAddress.Split | src/screens/SendScreen.tsx:25-26 | `split` always returns at least one piece |
| ScanAddress.SplitJoin | src/screens/SendScreen.tsx:25-26 | no piece contains the separator, and joining the pieces with it gives back the text |
| ScanAddress.JoinSplit | src/screens/SendScreen.tsx:25-26 | splitting separator-free pieces joined by the separator gives the pieces back |
| ScanAddress.Part | src/screens/SendScreen.tsx:25 | destructuring reads the element when it exists and `undefined` past the end |
| ScanAddress.SplitPieces | src/screens/SendScreen.tsx:25-26 | the first piece of a split leads the text, and there is more than one piece exactly when the separator occurs |
| ScanAddress.TrimStart | src/screens/SendScreen.tsx:27 | after skipping, the text is no longer and does not start with whitespace |
| ScanAddress.TrimStartDropsSpaces | src/screens/SendScreen.tsx:27 | `parseInt` drops exactly the whitespace at the front of the text: what remains is a suffix, and all that was dropped is whitespace |
| ScanAddress.LeadingDigits | src/screens/SendScreen.tsx:27 | `parseInt` reads the longest run of decimal digits and stops at the first other character |
| ScanAddress.ParseInt | src/screens/SendScreen.tsx:27 | `parseInt` of an undefined port is NaN |
| ScanAddress.ParseIntNeedsDigit | src/screens/SendScreen.tsx:27 | `parseInt` yields a number only when the text holds a decimal digit |
| ScanAddress.ParseIntDigits | src/screens/SendScreen.tsx:27 | a non-empty run of digits parses to its decimal value; text starting with no digit, sign or space parses to NaN |
| ScanAddress.SplitAddressParts | src/screens/SendScreen.tsx:25 | the connection data is the text before the first bar character of the stripped address; the device name is undefined exactly when there is no bar, and never contains one |
| ScanAddress.HandleScan | src/screens/SendScreen.tsx:24-28 | the host is a lead of the stripped address free of ':' and of the bar character; no ':' gives a NaN port; the device name is undefined exactly when there is no bar |
| ScanAddress.ScanRoundTrip | src/screens/SendScreen.tsx:24-28 | the advertised text (scheme, H, ':', P, a bar, N) parses back to host H, port value P and name N when H has no ':' or bar, N has no bar and P is digits |
| ScanAddress.SchemeOptional | src/screens/SendScreen.tsx:25 | a text without "tcp://" parses the same with or without the prefix |
| Discovery.OnMessage | src/screens/SendScreen.tsx:39-63 | a packet whose name is listed leaves the list unchanged; a new name appends one entry with that name and the packet text, earlier entries unchanged |
| Discovery.OnMessageKeepsDistinct | src/screens/SendScreen.tsx:41-62 | the updater keeps the listed names pairwise distinct |
| Discovery.OnMessageKeepsListed | src/screens/SendScreen.tsx:62 | a listed name stays listed |
| Discovery.FirstWithName | src/screens/SendScreen.tsx:42-43 | the first packet advertising a name, or none exactly when no packet does |
| Discovery.DiscoverDistinct | src/screens/SendScreen.tsx:41-62 | after any packets the names are distinct and there are no more entries than packets |
| Discovery.DiscoverListsAll | src/screens/SendScreen.tsx:39-63 | every advertised name ends up listed |
| Discovery.DiscoverKeepsFirst | src/screens/SendScreen.tsx:42-59 | every entry holds the first packet that advertised its name |
| Discovery.DiscoverFirstWins | src/screens/SendScreen.tsx:39-63 | first packet wins: distinct names, every name listed, each with its first packet |
| Discovery.Tap | src/screens/SendScreen.tsx:190 | tapping connects with the device name its packet advertises |
| Discovery.TapConnectsListedName | src/screens/SendScreen.tsx:190 | tapping a listed entry connects with the name it is listed under, using a packet that was received |
| Discovery.Mount | src/screens/SendScreen.tsx:67-72 | mounting binds one more socket and starts the empty list of a fresh `useState([])` (line 22); the effect holds a handle only in the corrected setup |
| Discovery.Unmount | src/screens/SendScreen.tsx:74-81 | the cleanup unmounts the screen, empties the list and closes a socket only through a held handle |
| Discovery.OnPacket | src/screens/SendScreen.tsx:39-41 | a packet updates the list only while the screen is mounted with a bound socket; a socket leaked past unmount changes nothing |
| Discovery.ReceiveAllKeepsSocket | src/screens/SendScreen.tsx:39-63 | receiving packets on a mounted screen builds the discovery list and leaves the sockets as they were |
| Discovery.ReceiveAllUnmounted | src/screens/SendScreen.tsx:39-41 | packets reaching a leaked socket after unmount change nothing |
| Discovery.UnmountLeavesSocketBound | src/screens/SendScreen.tsx:67-80 | as written, leaving the screen empties the list but the socket stays bound |
| Discovery.UnmountReleasesSocket | src/screens/SendScreen.tsx:67-80 | corrected, leaving the screen returns to the unmounted state |
| Discovery.RemountStartsAfresh | src/screens/SendScreen.tsx:22-81 | after an as-written visit, stray packets and a return, the screen lists only what it received itself, and two sockets are bound |

## Left out

- Sockets are not modelled: TLS server and client set-up, `listen`, `connectTLS`, `setNoDelay` and high-water marks (src/service/TCPProvider.tsx:61-66, 101-126). They are I/O plumbing. Whether a socket exists is a parameter, and written frames go to `outbox`.
- `connectToServer` (src/service/TCPProvider.tsx:113-156) is covered only through its `data` and `close` handlers (`Route`, `Close`). Its connect callback, which sets the peer name and writes the `connect` frame, is socket I/O.
- `sentMessage` (src/service/TCPProvider.tsx:175-187) is a plain socket write, outside the transfer engine.
- JSON framing is not modelled. Each socket write arrives as exactly one `data` event. TCP coalescing or splitting of writes, which would break `JSON.parse`, is not modelled.
- Base64 is not modelled. Chunks travel as their bytes, and the encode/decode round trip of `Buffer` is taken as the identity.
- The 10 ms `setTimeout` delays and async interleaving are not modelled. Each handler is one atomic step, and frames are handled in the order they were written.
- File-system and platform calls are parameters. `RNFS.readFile` becomes the file's bytes, `uuidv4` the fresh id, and `Platform.OS` with the RNFS directories the platform path. A write or read failure is not modelled: writes always succeed.
- `Alert.alert` becomes the `alerts` list. `console` output is not modelled.
- UDP socket creation and binding is a count of bound sockets, and the fixed port 57143 is a constant (src/screens/SendScreen.tsx:31-38).
- `startServer` (src/service/TCPProvider.tsx:56-110) is covered only by its guard against a second server; everything after the guard is socket set-up.
- Not modelled: `getRandomPosition`, `Animated`, Lottie, and the `Date.now`/`Math.random` ids (src/screens/SendScreen.tsx:44-57, 94-113). They are floating point and randomness with no effect on the transfer.
- The other screens and components (received-file screen, QR scanner modal, QR bottom sheet) are not part of this model.
- The side that builds the advertised `tcp://host:port|name` text is not part of this model. `ScanAddress.Advertised` states the format that `handleScan` expects.
- StopAndWait.LastRound: the end-to-end lemmas require a non-empty file whose block count is below 2^32 - 1. The empty file is covered separately by `EmptyFileNeverWritten`. A file of 2^32 - 1 blocks or more (about 32 TiB) is not covered.
- StopAndWait.LastRound: the end-to-end lemmas also require that no earlier received record carries the new file's id, and `TransferCorrected` requires the same of the sent records. The id comes from `uuidv4`, so a clash is not expected; with a clash, `findIndex` would mark the older record instead.
- StopAndWait.FinalRound: the network model delivers the receiver's requests before the sender's answers in every round. Other interleavings of the two sockets are not modelled.
- ScanAddress.ParseIntDigits: a port with more than 15 significant digits parses here to its exact value. JavaScript would round it to the nearest double.
- TransferState.AddBytes: the byte counters are unbounded integers. JavaScript's doubles round above 2^53 bytes.

## Findings

| source | as written | input that shows it | evidently intended | confidence | as-written member | corrected member |
|---|---|---|---|---|---|---|
| src/service/TCPUtils.tsx:50 | the block count is read from `currentChunkSet?.totalChunk`, but the chunk set stores `totalChunks`; the read is always undefined, so the completion test at line 60 is never true | any non-empty file: after block n - 1 is served the sender still holds its chunk set, its record never becomes available, and the next `sendFileAck` raises "Wait for current file" | read `totalChunks`, so that serving the last block marks the sent record available and drops the chunk set | not executed | StopAndWait.TransferAsWritten | StopAndWait.TransferCorrected |
| src/service/TCPUtils.tsx:102-111 | after the last block is stored the receiver still writes `send_chunk_ack` for block n | any non-empty file; with the first defect repaired the sender has no chunk set, answers with an empty frame and a NaN counter, and the receiver asks for n + 1, without end | stop requesting after the last block | not executed | StopAndWait.FixedSenderOnlyNeverSettles | TcpUtils.ReceiveChunkAckCorrected |
| src/screens/SendScreen.tsx:70 | `listenForDevices` returns nothing, so the effect's `udpServer` stays undefined and the cleanup at lines 74-79 never closes the socket | mount the send screen, receive any packets, leave the screen: the list is empty but port 57143 stays bound | return the socket from `listenForDevices` so the cleanup closes it | not executed | Discovery.UnmountLeavesSocketBound | Discovery.UnmountReleasesSocket |

The corrected forms run beside the as-written ones, selected per device by `Revision` (and, for the discovery listener, by `Discovery.Setup`). `StopAndWait.TransferCorrected` proves that with both transfer defects repaired, the exchange stops after exactly n rounds with the file written on one side and marked sent on the other.
