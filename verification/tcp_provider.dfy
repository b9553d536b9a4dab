/** The transfer logic of src/service/TCPProvider.tsx: announcing a file,
    the guard on starting a server, the control-message router on either end
    of the connection, and the reset on close or disconnect. Socket set-up,
    reading the picked file and generating the id are outside the model: the
    file's bytes, the fresh id and whether a socket exists are parameters. */
module TcpProvider {
  import opened Options
  import opened Chunking
  import opened TransferState
  import opened TcpUtils

  /** The end of the connection a device is on: the TLS server's socket
      handler (receiver role on the QR screen) or the TLS client. */
  datatype Role = Server | Client

  // -------------------------------------------------------------- sendFileAck

  function MimeTag(kind: PickKind): string {
    match kind
    case FileKind => "file"
    case ImageKind => ".jpg"
  }

  /** The `rawData` descriptor for a file split into `totalChunks` blocks. */
  function RawData(file: PickedFile, kind: PickKind, id: string, totalChunks: int): (d: Descriptor)
    ensures d.id == id && d.totalChunks == totalChunks
    ensures kind == FileKind ==> d.name == file.name && d.size == file.size && d.mimeType == "file"
    ensures kind == ImageKind ==> d.name == file.fileName && d.size == file.fileSize && d.mimeType == ".jpg"
  {
    match kind
    case FileKind => Descriptor(id, file.name, file.size, MimeTag(kind), totalChunks)
    case ImageKind => Descriptor(id, file.fileName, file.fileSize, MimeTag(kind), totalChunks)
  }

  /** `sendFileAck(file, type)` once the file's bytes have been read. The busy
      check only warns: the active chunk set is replaced regardless. */
  function SendFileAck(s: Transfer, file: PickedFile, kind: PickKind, id: string, bytes: Bytes, socketAvailable: bool): (r: Transfer)
    ensures r.currentChunkSet.Some?
    ensures r.currentChunkSet.value.id == id
    ensures Flatten(r.currentChunkSet.value.chunkArray) == bytes
    ensures r.currentChunkSet.value.totalChunks == |r.currentChunkSet.value.chunkArray| == CeilDiv(|bytes|)
    ensures WellSized(r.currentChunkSet.value.chunkArray)
    ensures |r.sentFiles| == |s.sentFiles| + 1 && r.sentFiles[..|s.sentFiles|] == s.sentFiles
    ensures r.sentFiles[|s.sentFiles|] == FileRecord(RawData(file, kind, id, CeilDiv(|bytes|)), Some(file.uri), false)
    ensures s.currentChunkSet.Some? ==> r.alerts == s.alerts + [WaitForCurrentFile]
    ensures s.currentChunkSet.None? ==> r.alerts == s.alerts
    ensures socketAvailable ==> r.outbox == s.outbox + [FileAckMsg(RawData(file, kind, id, CeilDiv(|bytes|)))]
    ensures !socketAvailable ==> r.outbox == s.outbox
    ensures SameReceiverSide(s, r) && SameSession(s, r) && r.totalSentBytes == s.totalSentBytes
  {
    ChunksRoundTrip(bytes);
    ChunksWellSized(bytes);
    ChunksCount(bytes);
    var chunkArray := Chunks(bytes);
    var raw := RawData(file, kind, id, |chunkArray|);
    var warned := if s.currentChunkSet.Some? then s.alerts + [WaitForCurrentFile] else s.alerts;
    var announced := s.(alerts := warned,
                        currentChunkSet := Some(OutboundSet(id, chunkArray, |chunkArray|)),
                        sentFiles := s.sentFiles + [FileRecord(raw, Some(file.uri), false)]);
    assert announced.sentFiles[..|s.sentFiles|] == s.sentFiles;
    if socketAvailable then announced.(outbox := announced.outbox + [FileAckMsg(raw)])
    else announced
  }

  // -------------------------------------------------------------- startServer

  /** `startServer(port)`: a no-op while a server exists, otherwise the
      server is recorded as listening on `port`. */
  function StartServer(s: Transfer, port: int): (r: Transfer)
    ensures s.server.Some? ==> r == s
    ensures s.server.None? ==> r == s.(server := Some(port))
    ensures r.server.Some?
  {
    if s.server.Some? then s else s.(server := Some(port))
  }

  // ---------------------------------------------------- close and disconnect

  /** The transfer state as `close` and `disconnect` leave it. */
  ghost predicate IsReset(r: Transfer) {
    && r.receivedFiles == [] && r.sentFiles == []
    && r.currentChunkSet.None? && r.chunkStore.None?
    && r.totalReceivedBytes == 0 && !r.isConnected
  }

  /** `disconnect()`: destroying the client and closing the server are socket
      operations; the state setters clear every transfer field except the
      sent-byte counter. */
  function Disconnect(s: Transfer): (r: Transfer)
    ensures IsReset(r)
    ensures r.totalSentBytes == s.totalSentBytes && r.connectedDevice == s.connectedDevice
    ensures r.server == s.server
    ensures r.outbox == s.outbox && r.alerts == s.alerts && r.writes == s.writes
  {
    s.(receivedFiles := [], sentFiles := [], currentChunkSet := None,
       totalReceivedBytes := 0, chunkStore := None, isConnected := false)
  }

  /** The socket `close` handler: the same setters, then `disconnect()`. */
  function Close(s: Transfer): (r: Transfer)
    ensures r == Disconnect(s)
  {
    Disconnect(Disconnect(s))
  }

  /** Clearing twice is clearing once, and a cleared state is a fixed point. */
  lemma DisconnectIdempotent(s: Transfer)
    ensures Disconnect(Disconnect(s)) == Disconnect(s)
    ensures IsReset(s) ==> Disconnect(s) == s
  {
  }

  /** A transport close in the middle of any transfer leaves no chunk state
      and no received record, and writes no file. */
  lemma CloseDropsTransfer(s: Transfer)
    ensures var r := Close(s);
      r.currentChunkSet.None? && r.chunkStore.None? && r.receivedFiles == [] && r.writes == s.writes
  {
  }

  // ------------------------------------------------------------------ router

  /** The `data` handler: dispatch on `event`. Only the server's handler
      knows `connect`; an unknown event changes nothing. */
  function Route(role: Role, platformPath: string, rev: Revision, s: Transfer, f: Frame): (r: Transfer)
    ensures s.outbox <= r.outbox
    ensures f.UnknownMsg? ==> r == s
    ensures f.ConnectMsg? && role == Client ==> r == s
    ensures f.ConnectMsg? && role == Server ==>
      r == s.(isConnected := true, connectedDevice := Some(f.deviceName))
    ensures f.SendChunkAckMsg? ==> SameReceiverSide(s, r) && SameSession(s, r)
    ensures f.FileAckMsg? || f.ReceiveChunkAckMsg? ==> SameSenderSide(s, r) && SameSession(s, r)
  {
    match f
    case ConnectMsg(name) =>
      if role == Server then s.(isConnected := true, connectedDevice := Some(name)) else s
    case FileAckMsg(d) => ReceivedFileAck(s, d)
    case SendChunkAckMsg(k) =>
      if rev == AsWritten then SendChunkAck(s, k) else SendChunkAckCorrected(s, k)
    case ReceiveChunkAckMsg(chunk, k) =>
      if rev == AsWritten then ReceiveChunkAck(s, chunk, k, platformPath)
      else ReceiveChunkAckCorrected(s, chunk, k, platformPath)
    case UnknownMsg(_) => s
  }
}
