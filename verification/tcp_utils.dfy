/** The three per-event transfer handlers of src/service/TCPUtils.tsx. The
    socket is the one the event arrived on, so it is always present; the
    10 ms delays and the `try`/`catch` blocks collapse into one atomic
    transition each, where a throwing step leaves the state as it was before
    that step. */
module TcpUtils {
  import opened Options
  import opened Chunking
  import opened TransferState
  import opened Reassembly

  // ---------------------------------------------------------------- file_ack

  /** `receivedFileAck`: the busy check only warns; the descriptor is appended
      to the received list, the store is replaced by an empty one for this
      file, and chunk 0 is requested. */
  function ReceivedFileAck(s: Transfer, d: Descriptor): (r: Transfer)
    ensures r.receivedFiles == s.receivedFiles + [FileRecord(d, None, false)]
    ensures r.chunkStore == Some(InboundStore(Some(d), []))
    ensures r.outbox == s.outbox + [SendChunkAckMsg(0)]
    ensures s.chunkStore.Some? ==> r.alerts == s.alerts + [FilesPendingReceive]
    ensures s.chunkStore.None? ==> r.alerts == s.alerts
    ensures SameSenderSide(s, r) && SameSession(s, r)
    ensures r.writes == s.writes && r.totalReceivedBytes == s.totalReceivedBytes
  {
    var warned := if s.chunkStore.Some? then s.alerts + [FilesPendingReceive] else s.alerts;
    s.(alerts := warned,
       receivedFiles := s.receivedFiles + [FileRecord(d, None, false)],
       chunkStore := Some(InboundStore(Some(d), [])),
       outbox := s.outbox + [SendChunkAckMsg(0)])
  }

  // ---------------------------------------------------------- send_chunk_ack

  /** The sender's read of the block count. As written it reads
      `currentChunkSet?.totalChunk`, a property the stored object does not
      have (it stores `totalChunks`), so the read is always undefined. */
  function ReadTotalChunks(active: OutboundSet, rev: Revision): (r: Option<int>)
    ensures r.None? <==> rev == AsWritten
    ensures r.Some? ==> r.value == active.totalChunks
  {
    match rev
    case AsWritten => None
    case Corrected => Some(active.totalChunks)
  }

  /** The sender's completion test `chunkIndex + 2 > totalChunks`; a
      comparison with undefined is false. */
  predicate SenderCompletes(k: int, total: Option<int>)
    ensures total.None? ==> !SenderCompletes(k, total)
    ensures total.Some? && k + 1 < total.value ==> !SenderCompletes(k, total)
  {
    total.Some? && k + 2 > total.value
  }

  /** The receiver's completion test `chunkNo + 1 === totalChunks`. */
  predicate ReceiverCompletes(k: int, total: int)
    ensures ReceiverCompletes(k, total) ==> k < total
    ensures k + 1 < total ==> !ReceiverCompletes(k, total)
  {
    k + 1 == total
  }

  /** On an in-range index the two completion tests agree. */
  lemma CompletionTestsAgree(k: int, n: int)
    requires 0 <= k < n
    ensures SenderCompletes(k, Some(n)) <==> ReceiverCompletes(k, n)
  {
  }

  /** The sent-list update on completion: the first record whose id matches
      becomes available. */
  function MarkSent(files: seq<FileRecord>, id: string): (r: seq<FileRecord>)
    ensures |r| == |files|
    ensures FreshId(files, id) ==> r == files
    ensures !FreshId(files, id) ==>
      exists i :: 0 <= i < |files| && files[i].info.id == id && FreshId(files[..i], id)
        && r[i] == files[i].(available := true)
        && (forall j :: 0 <= j < |files| && j != i ==> r[j] == files[j])
  {
    match FindIndex(files, id)
    case None => files
    case Some(i) => files[i := files[i].(available := true)]
  }

  /** `sendChunkAck` in either revision. */
  function ServeChunk(s: Transfer, k: int, rev: Revision): (r: Transfer)
    ensures SameReceiverSide(s, r) && SameSession(s, r)
    // no chunk active: warn, write a frame with no chunk, and the counter becomes NaN
    ensures s.currentChunkSet.None? ==>
      && r.alerts == s.alerts + [NoChunksToSend]
      && r.outbox == s.outbox + [ReceiveChunkAckMsg(None, k)]
      && r.totalSentBytes == NaN
      && r.currentChunkSet.None? && r.sentFiles == s.sentFiles
    // an index outside the blocks throws before the write: nothing happens
    ensures s.currentChunkSet.Some? && !(0 <= k < |s.currentChunkSet.value.chunkArray|) ==> r == s
    // an index inside the blocks sends that block and counts its bytes
    ensures s.currentChunkSet.Some? && 0 <= k < |s.currentChunkSet.value.chunkArray| ==>
      var c := s.currentChunkSet.value.chunkArray[k];
      && r.outbox == s.outbox + [ReceiveChunkAckMsg(Some(c), k)]
      && r.totalSentBytes == AddBytes(s.totalSentBytes, |c|)
      && r.alerts == s.alerts
  {
    match s.currentChunkSet
    case None =>
      s.(alerts := s.alerts + [NoChunksToSend],
         outbox := s.outbox + [ReceiveChunkAckMsg(None, k)],
         totalSentBytes := NaN)
    case Some(active) =>
      if 0 <= k < |active.chunkArray| then
        var c := active.chunkArray[k];
        var sent := s.(outbox := s.outbox + [ReceiveChunkAckMsg(Some(c), k)],
                       totalSentBytes := AddBytes(s.totalSentBytes, |c|));
        if SenderCompletes(k, ReadTotalChunks(active, rev)) then
          sent.(sentFiles := MarkSent(s.sentFiles, active.id), currentChunkSet := None)
        else sent
      else s
  }

  /** `sendChunkAck` as written: because the block count is read from a
      misspelled property, the completion branch never runs; the chunk set
      stays and the sent record is never marked available. */
  function SendChunkAck(s: Transfer, k: int): (r: Transfer)
    ensures r.currentChunkSet == s.currentChunkSet
    ensures r.sentFiles == s.sentFiles
    ensures SameReceiverSide(s, r) && SameSession(s, r)
    ensures s.currentChunkSet.Some? && 0 <= k < |s.currentChunkSet.value.chunkArray| ==>
      && r.outbox == s.outbox + [ReceiveChunkAckMsg(Some(s.currentChunkSet.value.chunkArray[k]), k)]
      && r.totalSentBytes == AddBytes(s.totalSentBytes, |s.currentChunkSet.value.chunkArray[k]|)
    ensures s.currentChunkSet.Some? && !(0 <= k < |s.currentChunkSet.value.chunkArray|) ==> r == s
  {
    ServeChunk(s, k, AsWritten)
  }

  /** `sendChunkAck` reading the stored `totalChunks`: on a consistent chunk
      set it completes exactly when the receiver's test `k + 1 == n` holds,
      marking the first matching sent record available and dropping the active. */
  function SendChunkAckCorrected(s: Transfer, k: int): (r: Transfer)
    ensures SameReceiverSide(s, r) && SameSession(s, r)
    ensures s.currentChunkSet.Some? && 0 <= k < |s.currentChunkSet.value.chunkArray|
            && s.currentChunkSet.value.totalChunks == |s.currentChunkSet.value.chunkArray| ==>
      var active := s.currentChunkSet.value;
      && r.outbox == s.outbox + [ReceiveChunkAckMsg(Some(active.chunkArray[k]), k)]
      && (r.currentChunkSet.None? <==> ReceiverCompletes(k, active.totalChunks))
      && (ReceiverCompletes(k, active.totalChunks) ==> r.sentFiles == MarkSent(s.sentFiles, active.id))
      && (!ReceiverCompletes(k, active.totalChunks) ==> r.sentFiles == s.sentFiles && r.currentChunkSet == s.currentChunkSet)
  {
    ServeChunk(s, k, Corrected)
  }

  // ------------------------------------------------------- receive_chunk_ack

  /** A JavaScript array index: an integer in [0, 2^32 - 1). Assigning to any
      other key of an array leaves its elements alone. */
  predicate IsArrayIndex(k: int) {
    0 <= k < 0xFFFF_FFFF
  }

  /** `updatedChunkArray[chunkNo] = bufferChunk` on a copy: overwrite inside
      the array, or grow it with holes up to the new index. */
  function StoreChunk(arr: seq<Option<Bytes>>, k: int, b: Bytes): (r: seq<Option<Bytes>>)
    ensures !IsArrayIndex(k) ==> r == arr
    ensures IsArrayIndex(k) ==> |r| == (if k < |arr| then |arr| else k + 1) && r[k] == Some(b)
    ensures forall i :: 0 <= i < |arr| && i != k ==> r[i] == arr[i]
    ensures forall i :: |arr| <= i < |r| && i != k ==> r[i].None?
  {
    if !IsArrayIndex(k) then arr
    else if k < |arr| then arr[k := Some(b)]
    else arr + seq(k - |arr|, _ => None) + [Some(b)]
  }

  /** `{...chunkStore, chunkArray: updatedChunkArray}`; spreading a null store
      leaves an object with only `chunkArray`. */
  function StoreInto(store: Option<InboundStore>, k: int, b: Bytes): (r: InboundStore)
    ensures store.Some? ==> r.meta == store.value.meta
    ensures store.None? ==> r.meta.None?
    ensures r.chunkArray == StoreChunk(if store.Some? then store.value.chunkArray else [], k, b)
  {
    match store
    case None => InboundStore(None, StoreChunk([], k, b))
    case Some(st) => st.(chunkArray := StoreChunk(st.chunkArray, k, b))
  }

  /** The completion test on the store read at the start of the handler. */
  predicate IsLastChunk(store: Option<InboundStore>, k: int) {
    store.Some? && store.value.meta.Some? && ReceiverCompletes(k, store.value.meta.value.totalChunks)
  }

  /** `receiveChunkAck` in either revision. The chunk is stored and counted
      (unless it is missing, when decoding throws first); on the last index
      the file is generated from the updated store and the store is reset;
      then the next index is requested, except after the last chunk in the
      corrected revision. */
  function ReceiveChunkAckOn(s: Transfer, chunk: Option<Bytes>, k: int, platformPath: string, rev: Revision): (r: Transfer)
    ensures SameSenderSide(s, r) && SameSession(s, r) && r.alerts == s.alerts
    ensures chunk.Some? ==> r.totalReceivedBytes == s.totalReceivedBytes + |chunk.value|
    ensures chunk.None? ==> r.totalReceivedBytes == s.totalReceivedBytes
    ensures !IsLastChunk(s.chunkStore, k) ==>
      && r.writes == s.writes && r.receivedFiles == s.receivedFiles
      && r.chunkStore == (if chunk.Some? then Some(StoreInto(s.chunkStore, k, chunk.value)) else s.chunkStore)
      && r.outbox == s.outbox + [SendChunkAckMsg(k + 1)]
    ensures IsLastChunk(s.chunkStore, k) ==>
      && r.chunkStore.None?
      && r.outbox == (if rev == AsWritten then s.outbox + [SendChunkAckMsg(k + 1)] else s.outbox)
  {
    var stored :=
      match chunk
      case None => s
      case Some(b) =>
        s.(chunkStore := Some(StoreInto(s.chunkStore, k, b)),
           totalReceivedBytes := s.totalReceivedBytes + |b|);
    var last := IsLastChunk(s.chunkStore, k);
    var finished := if last then GenerateFile(stored, platformPath).(chunkStore := None) else stored;
    assert finished.outbox == s.outbox;
    if last && rev == Corrected then finished
    else
      var r := finished.(outbox := finished.outbox + [SendChunkAckMsg(k + 1)]);
      assert r.outbox == s.outbox + [SendChunkAckMsg(k + 1)];
      assert last ==> rev == AsWritten;
      r
  }

  /** `receiveChunkAck` as written: the block lands at index `chunkNo` with
      every other slot and every other store field unchanged, and the next
      index is requested in every case, even after the last chunk. */
  function ReceiveChunkAck(s: Transfer, chunk: Option<Bytes>, k: int, platformPath: string): (r: Transfer)
    ensures r.outbox == s.outbox + [SendChunkAckMsg(k + 1)]
    ensures SameSenderSide(s, r) && SameSession(s, r)
    ensures chunk.Some? ==> r.totalReceivedBytes == s.totalReceivedBytes + |chunk.value|
    ensures chunk.Some? && s.chunkStore.Some? && IsArrayIndex(k) && !IsLastChunk(s.chunkStore, k) ==>
      var st := s.chunkStore.value;
      && r.chunkStore.Some? && r.chunkStore.value.meta == st.meta
      && |r.chunkStore.value.chunkArray| == (if k < |st.chunkArray| then |st.chunkArray| else k + 1)
      && r.chunkStore.value.chunkArray[k] == chunk
      && (forall i :: 0 <= i < |st.chunkArray| && i != k ==> r.chunkStore.value.chunkArray[i] == st.chunkArray[i])
    ensures IsLastChunk(s.chunkStore, k) ==> r.chunkStore.None?
  {
    ReceiveChunkAckOnStores(s, chunk, k, platformPath, AsWritten);
    ReceiveChunkAckOn(s, chunk, k, platformPath, AsWritten)
  }

  /** Before the last chunk, either revision stores a present block through
      `StoreInto`, that is, at array index `chunkNo` of the spread store. */
  lemma ReceiveChunkAckOnStores(s: Transfer, chunk: Option<Bytes>, k: int, platformPath: string, rev: Revision)
    ensures chunk.Some? && s.chunkStore.Some? && !IsLastChunk(s.chunkStore, k) ==>
      && ReceiveChunkAckOn(s, chunk, k, platformPath, rev).chunkStore == Some(StoreInto(s.chunkStore, k, chunk.value))
      && StoreInto(s.chunkStore, k, chunk.value).chunkArray == StoreChunk(s.chunkStore.value.chunkArray, k, chunk.value)
  {
  }

  /** `receiveChunkAck` without the request after the last chunk. */
  function ReceiveChunkAckCorrected(s: Transfer, chunk: Option<Bytes>, k: int, platformPath: string): (r: Transfer)
    ensures IsLastChunk(s.chunkStore, k) ==> r.outbox == s.outbox && r.chunkStore.None?
    ensures !IsLastChunk(s.chunkStore, k) ==> r.outbox == s.outbox + [SendChunkAckMsg(k + 1)]
    ensures SameSenderSide(s, r) && SameSession(s, r)
  {
    ReceiveChunkAckOn(s, chunk, k, platformPath, Corrected)
  }
}
