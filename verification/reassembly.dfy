/** `generateFile` (src/service/TCPProvider.tsx:241-273): join the stored
    blocks in index order, write them under the platform directory and mark
    the matching received record available. */
module Reassembly {
  import opened Options
  import opened Chunking
  import opened TransferState

  /** The stored blocks, when every slot holds one. `None` when some slot is a
      hole: `Buffer.concat` throws on it and nothing is written. */
  function Present(arr: seq<Option<Bytes>>): (r: Option<seq<Bytes>>)
    ensures r.Some? <==> forall i :: 0 <= i < |arr| ==> arr[i].Some?
    ensures r.Some? ==> |r.value| == |arr| && forall i :: 0 <= i < |arr| ==> r.value[i] == arr[i].value
    decreases |arr|
  {
    if |arr| == 0 then Some([])
    else
      match Present(arr[1..])
      case None =>
        assert exists i :: 0 <= i < |arr| - 1 && arr[1..][i].None?;
        None
      case Some(rest) =>
        if arr[0].Some? then Some([arr[0].value] + rest) else None
  }

  /** A fully populated store holding exactly the blocks `cs`. */
  function Stored(cs: seq<Bytes>): (r: seq<Option<Bytes>>)
    ensures |r| == |cs|
    ensures Present(r) == Some(cs)
  {
    var r := seq(|cs|, i requires 0 <= i < |cs| => Some(cs[i]));
    assert Present(r).Some?;
    assert Present(r).value == cs;
    r
  }

  /** File name of a store: the JavaScript template turns a missing `name`
      into the text "undefined". */
  function StoreName(st: InboundStore): string {
    match st.meta
    case Some(d) => d.name
    case None => "undefined"
  }

  /** Where the received file is written: the platform directory, a slash,
      and the store's file name ("undefined" when the store has no descriptor). */
  function FilePath(platformPath: string, st: InboundStore): string {
    platformPath + "/" + StoreName(st)
  }

  /** The received-list update: the first record whose id matches gets the
      written path as `uri` and `available = true`; a store without an id
      matches nothing. */
  function MarkReceived(files: seq<FileRecord>, id: Option<string>, path: string): (r: seq<FileRecord>)
    ensures |r| == |files|
    ensures id.None? || FreshId(files, id.value) ==> r == files
    ensures id.Some? && !FreshId(files, id.value) ==>
      exists i :: 0 <= i < |files| && files[i].info.id == id.value && FreshId(files[..i], id.value)
        && r[i] == FileRecord(files[i].info, Some(path), true)
        && (forall j :: 0 <= j < |files| && j != i ==> r[j] == files[j])
  {
    match id
    case None => files
    case Some(v) =>
      match FindIndex(files, v)
      case None => files
      case Some(i) => files[i := FileRecord(files[i].info, Some(path), true)]
  }

  function StoreId(st: InboundStore): Option<string> {
    match st.meta
    case Some(d) => Some(d.id)
    case None => None
  }

  /** `generateFile` with the store it reads when it runs. */
  function GenerateFile(s: Transfer, platformPath: string): (r: Transfer)
    ensures SameSenderSide(s, r) && SameSession(s, r)
    ensures r.outbox == s.outbox && r.alerts == s.alerts
    ensures r.totalReceivedBytes == s.totalReceivedBytes
    ensures s.chunkStore.None? ==> r == s
    ensures s.chunkStore.Some? && Present(s.chunkStore.value.chunkArray).None? ==> r == s
    ensures s.chunkStore.Some? && Present(s.chunkStore.value.chunkArray).Some? ==>
      var st := s.chunkStore.value;
      && r.writes == s.writes + [FileWrite(FilePath(platformPath, st), Flatten(Present(st.chunkArray).value))]
      && r.receivedFiles == MarkReceived(s.receivedFiles, StoreId(st), FilePath(platformPath, st))
      && r.chunkStore.None?
  {
    match s.chunkStore
    case None => s
    case Some(st) =>
      match Present(st.chunkArray)
      case None => s
      case Some(cs) =>
        var path := FilePath(platformPath, st);
        s.(writes := s.writes + [FileWrite(path, Flatten(cs))],
           receivedFiles := MarkReceived(s.receivedFiles, StoreId(st), path),
           chunkStore := None)
  }

  /** A store whose slots hold exactly the sender's blocks is written out as
      the original file. */
  lemma GenerateFileRestoresFile(s: Transfer, platformPath: string, d: Descriptor, bytes: Bytes)
    requires s.chunkStore == Some(InboundStore(Some(d), Stored(Chunks(bytes))))
    ensures GenerateFile(s, platformPath).writes == s.writes + [FileWrite(platformPath + "/" + d.name, bytes)]
  {
    ChunksRoundTrip(bytes);
  }
}
