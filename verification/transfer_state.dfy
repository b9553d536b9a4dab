/** The state one device keeps for the transfer engine: the React state of
    `TCPProvider`, the chunk store it shares with the handlers, and the
    observable effects of a transition (frames written to the socket, alerts
    shown, files written). Each handler is modelled as one atomic transition
    on this record. */
module TransferState {
  import opened Options
  import opened Chunking

  /** The picker a file came from: `sendFileAck(file, type)` with type
      'file' or 'image'. */
  datatype PickKind = FileKind | ImageKind

  /** What the picker hands over. Document pickers fill `name`/`size`, the
      image picker fills `fileName`/`fileSize`. */
  datatype PickedFile = PickedFile(uri: string, name: string, size: int, fileName: string, fileSize: int)

  /** The `rawData` object announced in `file_ack`. */
  datatype Descriptor = Descriptor(id: string, name: string, size: int, mimeType: string, totalChunks: int)

  /** An entry of `sentFiles` or `receivedFiles`: the descriptor plus the
      `uri` and `available` properties that may or may not have been set. */
  datatype FileRecord = FileRecord(info: Descriptor, uri: Option<string>, available: bool)

  /** `currentChunkSet`: the sender's blocks for the file in flight. */
  datatype OutboundSet = OutboundSet(id: string, chunkArray: seq<Bytes>, totalChunks: int)

  /** `chunkStore`: the receiver's blocks, indexed by chunk number, with holes
      (`None`) where nothing was stored. `meta` is `None` for the object that
      arises when a chunk is stored while no store exists: it then carries
      only `chunkArray`. */
  datatype InboundStore = InboundStore(meta: Option<Descriptor>, chunkArray: seq<Option<Bytes>>)

  /** A control message `{event, ...}`. The base64 text of a chunk is carried
      as the bytes it encodes; `chunk` is `None` when the property is absent. */
  datatype Frame =
    | ConnectMsg(deviceName: string)
    | FileAckMsg(file: Descriptor)
    | SendChunkAckMsg(chunkNo: int)
    | ReceiveChunkAckMsg(chunk: Option<Bytes>, chunkNo: int)
    | UnknownMsg(event: string)

  /** The three user-visible warnings raised by the transfer code. */
  datatype Alert = WaitForCurrentFile | FilesPendingReceive | NoChunksToSend

  /** One `RNFS.writeFile(path, bytes)`. */
  datatype FileWrite = FileWrite(path: string, content: Bytes)

  /** A JavaScript number that only ever counts bytes: either a count or the
      `NaN` that adding `undefined` produces. */
  datatype Tally = Count(n: nat) | NaN

  /** Which code a peer runs: the handlers as written, or with the two
      transfer defects described in README's findings repaired (the sender
      reads the stored `totalChunks`; the receiver sends no request after
      the last chunk). */
  datatype Revision = AsWritten | Corrected

  datatype Transfer = Transfer(
    server: Option<int>,
    isConnected: bool,
    connectedDevice: Option<string>,
    currentChunkSet: Option<OutboundSet>,
    chunkStore: Option<InboundStore>,
    sentFiles: seq<FileRecord>,
    receivedFiles: seq<FileRecord>,
    totalSentBytes: Tally,
    totalReceivedBytes: nat,
    outbox: seq<Frame>,
    alerts: seq<Alert>,
    writes: seq<FileWrite>)

  /** The state on mount: every `useState` initial value and an empty store. */
  function Initial(): Transfer {
    Transfer(None, false, None, None, None, [], [], Count(0), 0, [], [], [])
  }

  /** `prev + length`: NaN absorbs, a count grows. */
  function AddBytes(t: Tally, k: nat): (r: Tally)
    ensures t.NaN? <==> r.NaN?
    ensures t.Count? ==> r.n - t.n == k
  {
    match t
    case NaN => NaN
    case Count(n) => Count(n + k)
  }

  lemma AddBytesAssociative(t: Tally, a: nat, b: nat)
    ensures AddBytes(AddBytes(t, a), b) == AddBytes(t, a + b)
  {
  }

  /** No record in `files` carries `id`. */
  ghost predicate FreshId(files: seq<FileRecord>, id: string) {
    forall i :: 0 <= i < |files| ==> files[i].info.id != id
  }

  /** `findIndex(f => f.id === id)`: the first record carrying `id`. */
  function FindIndex(files: seq<FileRecord>, id: string): (r: Option<nat>)
    ensures r.None? <==> FreshId(files, id)
    ensures r.Some? ==> r.value < |files| && files[r.value].info.id == id
    ensures r.Some? ==> FreshId(files[..r.value], id)
    decreases |files|
  {
    if |files| == 0 then None
    else if files[0].info.id == id then Some(0)
    else
      match FindIndex(files[1..], id)
      case None => None
      case Some(i) =>
        assert files[..i + 1] == [files[0]] + files[1..][..i];
        Some(i + 1)
  }

  /** The sending side of the state: what only the sender handlers touch. */
  ghost predicate SameSenderSide(s: Transfer, r: Transfer) {
    && r.currentChunkSet == s.currentChunkSet
    && r.sentFiles == s.sentFiles
    && r.totalSentBytes == s.totalSentBytes
  }

  /** The receiving side of the state: what only the receiver handlers touch. */
  ghost predicate SameReceiverSide(s: Transfer, r: Transfer) {
    && r.chunkStore == s.chunkStore
    && r.receivedFiles == s.receivedFiles
    && r.totalReceivedBytes == s.totalReceivedBytes
    && r.writes == s.writes
  }

  /** The connection bookkeeping. */
  ghost predicate SameSession(s: Transfer, r: Transfer) {
    && r.server == s.server
    && r.isConnected == s.isConnected
    && r.connectedDevice == s.connectedDevice
  }
}
