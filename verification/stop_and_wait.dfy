/** Two devices joined by one connection, one sending a file and one
    receiving it. Frames written by one side are handed, in order and one
    write per frame, to the other side's router. A round delivers the
    receiver's outstanding requests to the sender and the sender's answers
    back to the receiver; the run stops when no request is outstanding. */
module StopAndWait {
  import opened Options
  import opened Chunking
  import opened TransferState
  import opened Reassembly
  import opened TcpUtils
  import opened TcpProvider

  /** A device: which end of the connection it is on, its download
      directory, which revision of the handlers it runs, and its state. */
  datatype Peer = Peer(role: Role, platformPath: string, rev: Revision, state: Transfer)

  /** The peer handles one inbound frame. */
  function Receive(p: Peer, f: Frame): (q: Peer)
    ensures q.role == p.role && q.platformPath == p.platformPath && q.rev == p.rev
    ensures p.state.outbox <= q.state.outbox
  {
    p.(state := Route(p.role, p.platformPath, p.rev, p.state, f))
  }

  /** The peer handles the frames in order. */
  function Deliver(p: Peer, fs: seq<Frame>): (q: Peer)
    ensures q.role == p.role && q.platformPath == p.platformPath && q.rev == p.rev
    ensures p.state.outbox <= q.state.outbox
    decreases |fs|
  {
    if |fs| == 0 then p else Deliver(Receive(p, fs[0]), fs[1..])
  }

  lemma DeliverOne(p: Peer, f: Frame)
    ensures Deliver(p, [f]) == Receive(p, f)
  {
    assert [f][1..] == [];
  }

  /** The frames a peer wrote between two of its states. */
  function Emitted(before: Peer, after: Peer): seq<Frame>
    requires before.state.outbox <= after.state.outbox
  {
    after.state.outbox[|before.state.outbox|..]
  }

  /** Both devices and the requests the receiver has written that the sender
      has not yet handled. */
  datatype Net = Net(sender: Peer, receiver: Peer, requests: seq<Frame>)

  function Step(n: Net): Net {
    var snd := Deliver(n.sender, n.requests);
    var rcv := Deliver(n.receiver, Emitted(n.sender, snd));
    Net(snd, rcv, Emitted(n.receiver, rcv))
  }

  /** At most `rounds` rounds; a round with no outstanding request changes
      nothing, so the run simply stays where it settled. `Run` and `Round`
      are defined together. */
  function Run(n: Net, rounds: nat): Net
    decreases rounds, 1
  {
    if rounds == 0 then n else Round(n, rounds)
  }

  /** The last of `rounds` rounds, after the ones before it. */
  function Round(n: Net, rounds: nat): Net
    requires rounds > 0
    decreases rounds, 0
  {
    var before := Run(n, rounds - 1);
    if before.requests == [] then before else Step(before)
  }

  lemma RunUnfold(n: Net, rounds: nat)
    requires rounds > 0
    ensures var before := Run(n, rounds - 1);
      Run(n, rounds) == if before.requests == [] then before else Step(before)
  {
  }

  /** The sender announces a file (its socket is up) and the receiver handles
      the announcement. */
  function Announce(sender: Peer, receiver: Peer, file: PickedFile, kind: PickKind, id: string, bytes: Bytes): Net {
    var snd := sender.(state := SendFileAck(sender.state, file, kind, id, bytes, true));
    var rcv := Deliver(receiver, Emitted(sender, snd));
    Net(snd, rcv, Emitted(receiver, rcv))
  }

  // ------------------------------------------------------------ bookkeeping

  /** The answers the sender has written for requests 0..j-1. */
  function Served(cs: seq<Bytes>, j: nat): seq<Frame>
    requires j <= |cs|
  {
    if j == 0 then [] else Served(cs, j - 1) + [ReceiveChunkAckMsg(Some(cs[j - 1]), j - 1)]
  }

  /** The requests the receiver has written after its first one. */
  function Requests(j: nat): seq<Frame> {
    if j == 0 then [] else Requests(j - 1) + [SendChunkAckMsg(j)]
  }

  /** The state right after the announcement of the blocks `cs` under `d`. */
  ghost predicate Announced(b: Net, cs: seq<Bytes>, d: Descriptor) {
    && b.sender.state.currentChunkSet == Some(OutboundSet(d.id, cs, |cs|))
    && d.totalChunks == |cs|
    && IsArrayIndex(|cs|)
    && b.receiver.state.chunkStore == Some(InboundStore(Some(d), []))
    && b.requests == [SendChunkAckMsg(0)]
  }

  /** The network after blocks 0..j-1 have crossed: the sender has answered j
      requests, the receiver holds those blocks and asks for block j. */
  function InFlight(b: Net, cs: seq<Bytes>, d: Descriptor, j: nat): Net
    requires j <= |cs|
  {
    var sent := |Flatten(cs[..j])|;
    Net(
      b.sender.(state := b.sender.state.(
        outbox := b.sender.state.outbox + Served(cs, j),
        totalSentBytes := AddBytes(b.sender.state.totalSentBytes, sent))),
      b.receiver.(state := b.receiver.state.(
        outbox := b.receiver.state.outbox + Requests(j),
        chunkStore := Some(InboundStore(Some(d), Stored(cs[..j]))),
        totalReceivedBytes := b.receiver.state.totalReceivedBytes + sent)),
      [SendChunkAckMsg(j)])
  }

  lemma InFlightStart(b: Net, cs: seq<Bytes>, d: Descriptor)
    requires Announced(b, cs, d)
    ensures InFlight(b, cs, d, 0) == b
  {
    assert cs[..0] == [];
    assert Stored([]) == [];
    assert b.sender.state.outbox + [] == b.sender.state.outbox;
    assert b.receiver.state.outbox + [] == b.receiver.state.outbox;
  }

  /** Storing block j into a store holding blocks 0..j-1 gives blocks 0..j. */
  lemma StoredStep(cs: seq<Bytes>, j: nat)
    requires j < |cs| && IsArrayIndex(j)
    ensures StoreChunk(Stored(cs[..j]), j, cs[j]) == Stored(cs[..j + 1])
  {
    var arr := Stored(cs[..j]);
    var holes: seq<Option<Bytes>> := seq(j - |arr|, _ => None);
    assert holes == [];
    var r := StoreChunk(arr, j, cs[j]);
    assert r == arr + [Some(cs[j])];
  }

  /** The sender's half of a round: it answers request j with block j. */
  lemma SenderAnswers(b: Net, cs: seq<Bytes>, d: Descriptor, j: nat)
    requires Announced(b, cs, d) && j < |cs|
    ensures var p := InFlight(b, cs, d, j).sender;
      var q := Deliver(p, [SendChunkAckMsg(j)]);
      && Emitted(p, q) == [ReceiveChunkAckMsg(Some(cs[j]), j)]
      && (j + 1 < |cs| || b.sender.rev == AsWritten ==> q == InFlight(b, cs, d, j + 1).sender)
      && (j + 1 == |cs| && b.sender.rev == Corrected ==>
            q == InFlight(b, cs, d, j + 1).sender.(state := InFlight(b, cs, d, j + 1).sender.state.(
                   sentFiles := MarkSent(b.sender.state.sentFiles, d.id), currentChunkSet := None)))
  {
    var p := InFlight(b, cs, d, j).sender;
    var q := Deliver(p, [SendChunkAckMsg(j)]);
    DeliverOne(p, SendChunkAckMsg(j));
    FlattenPrefixStep(cs, j);
    AddBytesAssociative(b.sender.state.totalSentBytes, |Flatten(cs[..j])|, |cs[j]|);
    assert Served(cs, j + 1) == Served(cs, j) + [ReceiveChunkAckMsg(Some(cs[j]), j)];
    assert p.state.outbox + [ReceiveChunkAckMsg(Some(cs[j]), j)] == b.sender.state.outbox + Served(cs, j + 1);
  }

  /** The receiver's half of a round before the last block: it stores block j
      and asks for block j + 1. */
  lemma ReceiverStores(b: Net, cs: seq<Bytes>, d: Descriptor, j: nat)
    requires Announced(b, cs, d) && j + 1 < |cs|
    ensures var p := InFlight(b, cs, d, j).receiver;
      var q := Deliver(p, [ReceiveChunkAckMsg(Some(cs[j]), j)]);
      && q == InFlight(b, cs, d, j + 1).receiver
      && Emitted(p, q) == [SendChunkAckMsg(j + 1)]
  {
    var p := InFlight(b, cs, d, j).receiver;
    var q := Deliver(p, [ReceiveChunkAckMsg(Some(cs[j]), j)]);
    DeliverOne(p, ReceiveChunkAckMsg(Some(cs[j]), j));
    assert !IsLastChunk(p.state.chunkStore, j);
    StoredStep(cs, j);
    FlattenPrefixStep(cs, j);
    assert Requests(j + 1) == Requests(j) + [SendChunkAckMsg(j + 1)];
    assert p.state.outbox + [SendChunkAckMsg(j + 1)] == b.receiver.state.outbox + Requests(j + 1);
  }

  /** One round before the last block moves the transfer on by one block. */
  lemma MidRound(b: Net, cs: seq<Bytes>, d: Descriptor, j: nat)
    requires Announced(b, cs, d) && 0 < j < |cs|
    ensures Step(InFlight(b, cs, d, j - 1)) == InFlight(b, cs, d, j)
  {
    SenderAnswers(b, cs, d, j - 1);
    ReceiverStores(b, cs, d, j - 1);
  }

  /** If j - 1 rounds reach block j - 1, one more round reaches block j. */
  lemma RunMidRound(b: Net, cs: seq<Bytes>, d: Descriptor, j: nat)
    requires Announced(b, cs, d) && 0 < j < |cs|
    requires Run(b, j - 1) == InFlight(b, cs, d, j - 1)
    ensures Run(b, j) == InFlight(b, cs, d, j)
  {
    RunUnfold(b, j);
    MidRound(b, cs, d, j);
  }

  /** Running from the announcement reaches block j after j rounds. */
  lemma {:induction false} RunToBlock(b: Net, cs: seq<Bytes>, d: Descriptor, j: nat)
    requires Announced(b, cs, d) && j < |cs|
    ensures Run(b, j) == InFlight(b, cs, d, j)
    decreases j
  {
    if j == 0 {
      InFlightStart(b, cs, d);
    } else {
      RunToBlock(b, cs, d, j - 1);
      RunMidRound(b, cs, d, j);
    }
  }

  /** The receiver's handler on the last block of a store holding all the
      others: the file is generated from the completed store and the store
      is dropped. */
  lemma ReceiveLastBlock(s: Transfer, d: Descriptor, cs: seq<Bytes>, platformPath: string, rev: Revision)
    requires |cs| > 0 && IsArrayIndex(|cs|) && d.totalChunks == |cs|
    requires s.chunkStore == Some(InboundStore(Some(d), Stored(cs[..|cs| - 1])))
    ensures var j := |cs| - 1;
      var r := ReceiveChunkAckOn(s, Some(cs[j]), j, platformPath, rev);
      var path := platformPath + "/" + d.name;
      && r.writes == s.writes + [FileWrite(path, Flatten(cs))]
      && r.receivedFiles == MarkReceived(s.receivedFiles, Some(d.id), path)
      && r.chunkStore.None?
      && r.totalReceivedBytes == s.totalReceivedBytes + |cs[j]|
      && r.alerts == s.alerts
      && r.outbox == (if rev == AsWritten then s.outbox + [SendChunkAckMsg(|cs|)] else s.outbox)
  {
    var j := |cs| - 1;
    assert IsLastChunk(s.chunkStore, j);
    StoredStep(cs, j);
    assert cs[..j + 1] == cs;
    var st := InboundStore(Some(d), Stored(cs));
    assert StoreInto(s.chunkStore, j, cs[j]) == st;
    assert Present(st.chunkArray) == Some(cs);
    assert FilePath(platformPath, st) == platformPath + "/" + d.name;
    assert StoreId(st) == Some(d.id);
  }

  /** The receiver's half of the last round, seen from the network. */
  lemma ReceiverFinishes(p: Peer, cs: seq<Bytes>, d: Descriptor)
    requires |cs| > 0 && IsArrayIndex(|cs|) && d.totalChunks == |cs|
    requires p.state.chunkStore == Some(InboundStore(Some(d), Stored(cs[..|cs| - 1])))
    ensures var j := |cs| - 1;
      var q := Deliver(p, [ReceiveChunkAckMsg(Some(cs[j]), j)]);
      var path := p.platformPath + "/" + d.name;
      && q.state.writes == p.state.writes + [FileWrite(path, Flatten(cs))]
      && q.state.receivedFiles == MarkReceived(p.state.receivedFiles, Some(d.id), path)
      && q.state.chunkStore.None?
      && q.state.totalReceivedBytes == p.state.totalReceivedBytes + |cs[j]|
      && q.state.alerts == p.state.alerts
      && (p.rev == AsWritten ==> Emitted(p, q) == [SendChunkAckMsg(|cs|)])
      && (p.rev == Corrected ==> Emitted(p, q) == [])
  {
    var j := |cs| - 1;
    DeliverOne(p, ReceiveChunkAckMsg(Some(cs[j]), j));
    var q := Receive(p, ReceiveChunkAckMsg(Some(cs[j]), j));
    assert q.state == ReceiveChunkAckOn(p.state, Some(cs[j]), j, p.platformPath, p.rev);
    ReceiveLastBlock(p.state, d, cs, p.platformPath, p.rev);
  }

  /** The sender's half of the announcement: it holds the file's blocks,
      has appended its record, and has written exactly the `file_ack` frame. */
  lemma AnnounceSender(sender: Peer, receiver: Peer, file: PickedFile, kind: PickKind, id: string, bytes: Bytes)
    ensures var d := RawData(file, kind, id, CeilDiv(|bytes|));
      var b := Announce(sender, receiver, file, kind, id, bytes);
      && sender.state.outbox <= b.sender.state.outbox
      && Emitted(sender, b.sender) == [FileAckMsg(d)]
      && b.sender.state.currentChunkSet == Some(OutboundSet(id, Chunks(bytes), |Chunks(bytes)|))
      && b.sender.rev == sender.rev
      && b.sender.state.sentFiles == sender.state.sentFiles + [FileRecord(d, Some(file.uri), false)]
      && b.sender.state.totalSentBytes == sender.state.totalSentBytes
  {
    ChunksCount(bytes);
    var s := sender.state;
    var r := SendFileAck(s, file, kind, id, bytes, true);
    assert r.sentFiles == r.sentFiles[..|s.sentFiles|] + [r.sentFiles[|s.sentFiles|]];
  }

  /** The receiver's half of the announcement: it appends the record, opens
      an empty store for the descriptor and asks for block 0. */
  lemma AnnounceReceiver(sender: Peer, receiver: Peer, file: PickedFile, kind: PickKind, id: string, bytes: Bytes)
    ensures var d := RawData(file, kind, id, CeilDiv(|bytes|));
      var b := Announce(sender, receiver, file, kind, id, bytes);
      && b.receiver.state.chunkStore == Some(InboundStore(Some(d), []))
      && b.requests == [SendChunkAckMsg(0)]
      && b.receiver.rev == receiver.rev
      && b.receiver.platformPath == receiver.platformPath
      && b.receiver.state.receivedFiles == receiver.state.receivedFiles + [FileRecord(d, None, false)]
      && b.receiver.state.writes == receiver.state.writes
      && b.receiver.state.totalReceivedBytes == receiver.state.totalReceivedBytes
  {
    var d := RawData(file, kind, id, CeilDiv(|bytes|));
    AnnounceSender(sender, receiver, file, kind, id, bytes);
    DeliverOne(receiver, FileAckMsg(d));
  }

  /** The announcement sets both ends up for the stop-and-wait exchange. */
  lemma AnnounceEstablishes(sender: Peer, receiver: Peer, file: PickedFile, kind: PickKind, id: string, bytes: Bytes)
    requires IsArrayIndex(CeilDiv(|bytes|))
    ensures var d := RawData(file, kind, id, CeilDiv(|bytes|));
      var b := Announce(sender, receiver, file, kind, id, bytes);
      && Announced(b, Chunks(bytes), d)
      && b.sender.rev == sender.rev && b.receiver.rev == receiver.rev
      && b.receiver.platformPath == receiver.platformPath
      && b.sender.state.sentFiles == sender.state.sentFiles + [FileRecord(d, Some(file.uri), false)]
      && b.sender.state.totalSentBytes == sender.state.totalSentBytes
      && b.receiver.state.receivedFiles == receiver.state.receivedFiles + [FileRecord(d, None, false)]
      && b.receiver.state.writes == receiver.state.writes
      && b.receiver.state.totalReceivedBytes == receiver.state.totalReceivedBytes
  {
    ChunksCount(bytes);
    AnnounceSender(sender, receiver, file, kind, id, bytes);
    AnnounceReceiver(sender, receiver, file, kind, id, bytes);
  }

  /** Marking the freshly appended record is marking the last entry. */
  lemma MarkReceivedAppended(files: seq<FileRecord>, d: Descriptor, path: string)
    requires FreshId(files, d.id)
    ensures MarkReceived(files + [FileRecord(d, None, false)], Some(d.id), path)
         == files + [FileRecord(d, Some(path), true)]
  {
    var all := files + [FileRecord(d, None, false)];
    assert all[|files|].info.id == d.id;
    var i := FindIndex(all, d.id).value;
    assert i == |files|;
  }

  lemma MarkSentAppended(files: seq<FileRecord>, d: Descriptor, uri: string)
    requires FreshId(files, d.id)
    ensures MarkSent(files + [FileRecord(d, Some(uri), false)], d.id)
         == files + [FileRecord(d, Some(uri), true)]
  {
    var all := files + [FileRecord(d, Some(uri), false)];
    assert all[|files|].info.id == d.id;
    var i := FindIndex(all, d.id).value;
    assert i == |files|;
  }

  /** A sender holding the blocks `cs` answers the request for the last one:
      it counts that block, and only the corrected sender then drops its
      chunk set and marks its record. */
  lemma SenderServesLast(p: Peer, cs: seq<Bytes>, id: string)
    requires |cs| > 0 && p.state.currentChunkSet == Some(OutboundSet(id, cs, |cs|))
    ensures var q := Deliver(p, [SendChunkAckMsg(|cs| - 1)]);
      && q.state.totalSentBytes == AddBytes(p.state.totalSentBytes, |cs[|cs| - 1]|)
      && q.rev == p.rev
      && (p.rev == AsWritten ==>
            q.state.currentChunkSet == p.state.currentChunkSet && q.state.sentFiles == p.state.sentFiles)
      && (p.rev == Corrected ==>
            q.state.currentChunkSet.None? && q.state.sentFiles == MarkSent(p.state.sentFiles, id))
  {
    DeliverOne(p, SendChunkAckMsg(|cs| - 1));
  }

  /** The sender's half of the round that carries the last block: its byte
      counter now covers the whole file, and its chunk set and sent list
      depend on its revision. */
  lemma LastStepSender(b: Net, cs: seq<Bytes>, d: Descriptor)
    requires Announced(b, cs, d) && |cs| > 0
    ensures var x := InFlight(b, cs, d, |cs| - 1);
      var q := Deliver(x.sender, x.requests);
      && q.state.totalSentBytes == AddBytes(b.sender.state.totalSentBytes, |Flatten(cs)|)
      && q.rev == b.sender.rev
      && (b.sender.rev == AsWritten ==>
            q.state.currentChunkSet == b.sender.state.currentChunkSet
            && q.state.sentFiles == b.sender.state.sentFiles)
      && (b.sender.rev == Corrected ==>
            q.state.currentChunkSet.None?
            && q.state.sentFiles == MarkSent(b.sender.state.sentFiles, d.id))
  {
    var n := |cs|;
    var x := InFlight(b, cs, d, n - 1);
    SenderServesLast(x.sender, cs, d.id);
    FlattenPrefixStep(cs, n - 1);
    assert cs[..n] == cs;
    AddBytesAssociative(b.sender.state.totalSentBytes, |Flatten(cs[..n - 1])|, |cs[n - 1]|);
  }

  /** The receiver's half of the round that carries the last block: it
      writes the joined blocks, marks its record, drops its store, and asks
      for one more block only as written. */
  lemma LastStepReceiver(b: Net, cs: seq<Bytes>, d: Descriptor)
    requires Announced(b, cs, d) && |cs| > 0
    ensures var fin := Step(InFlight(b, cs, d, |cs| - 1));
      var path := b.receiver.platformPath + "/" + d.name;
      && fin.receiver.state.writes == b.receiver.state.writes + [FileWrite(path, Flatten(cs))]
      && fin.receiver.state.receivedFiles == MarkReceived(b.receiver.state.receivedFiles, Some(d.id), path)
      && fin.receiver.state.chunkStore.None?
      && fin.receiver.state.totalReceivedBytes == b.receiver.state.totalReceivedBytes + |Flatten(cs)|
      && fin.receiver.rev == b.receiver.rev
      && (b.receiver.rev == AsWritten ==> fin.requests == [SendChunkAckMsg(|cs|)])
      && (b.receiver.rev == Corrected ==> fin.requests == [])
  {
    var n := |cs|;
    var x := InFlight(b, cs, d, n - 1);
    var last := ReceiveChunkAckMsg(Some(cs[n - 1]), n - 1);
    SenderAnswers(b, cs, d, n - 1);
    var snd := Deliver(x.sender, x.requests);
    assert Emitted(x.sender, snd) == [last];
    var rcv := Deliver(x.receiver, [last]);
    ReceiverFinishes(x.receiver, cs, d);
    assert Step(x) == Net(snd, rcv, Emitted(x.receiver, rcv));
    FlattenPrefixStep(cs, n - 1);
    assert cs[..n] == cs;
  }

  /** The round that carries the last block, from any announced state: the
      receiver writes the concatenated blocks and marks its record; the
      sender's side depends on its revision, the outstanding request on the
      receiver's. */
  lemma FinalRound(b: Net, cs: seq<Bytes>, d: Descriptor)
    requires Announced(b, cs, d) && |cs| > 0
    ensures var fin := Run(b, |cs|);
      var path := b.receiver.platformPath + "/" + d.name;
      && fin.receiver.state.writes == b.receiver.state.writes + [FileWrite(path, Flatten(cs))]
      && fin.receiver.state.receivedFiles == MarkReceived(b.receiver.state.receivedFiles, Some(d.id), path)
      && fin.receiver.state.chunkStore.None?
      && fin.receiver.state.totalReceivedBytes == b.receiver.state.totalReceivedBytes + |Flatten(cs)|
      && fin.sender.state.totalSentBytes == AddBytes(b.sender.state.totalSentBytes, |Flatten(cs)|)
      && fin.sender.rev == b.sender.rev && fin.receiver.rev == b.receiver.rev
      && (b.sender.rev == AsWritten ==>
            fin.sender.state.currentChunkSet == b.sender.state.currentChunkSet
            && fin.sender.state.sentFiles == b.sender.state.sentFiles)
      && (b.sender.rev == Corrected ==>
            fin.sender.state.currentChunkSet.None?
            && fin.sender.state.sentFiles == MarkSent(b.sender.state.sentFiles, d.id))
      && (b.receiver.rev == AsWritten ==> fin.requests == [SendChunkAckMsg(|cs|)])
      && (b.receiver.rev == Corrected ==> fin.requests == [])
  {
    var n := |cs|;
    RunToBlock(b, cs, d, n - 1);
    RunUnfold(b, n);
    var x := InFlight(b, cs, d, n - 1);
    assert Run(b, n) == Step(x);
    assert Step(x).sender == Deliver(x.sender, x.requests);
    LastStepSender(b, cs, d);
    LastStepReceiver(b, cs, d);
  }

  /** The whole exchange for a non-empty file up to and including the last
      block: n rounds after the announcement the receiver has written the
      file, byte for byte, and marked its record available. */
  lemma LastRound(sender: Peer, receiver: Peer, file: PickedFile, kind: PickKind, id: string, bytes: Bytes)
    requires 0 < |bytes| && IsArrayIndex(CeilDiv(|bytes|))
    requires FreshId(receiver.state.receivedFiles, id)
    ensures var n := CeilDiv(|bytes|);
      var d := RawData(file, kind, id, n);
      var path := receiver.platformPath + "/" + d.name;
      var b := Announce(sender, receiver, file, kind, id, bytes);
      var fin := Run(b, n);
      && fin.receiver.state.writes == receiver.state.writes + [FileWrite(path, bytes)]
      && fin.receiver.state.receivedFiles == receiver.state.receivedFiles + [FileRecord(d, Some(path), true)]
      && fin.receiver.state.chunkStore.None?
      && fin.receiver.state.totalReceivedBytes == receiver.state.totalReceivedBytes + |bytes|
      && fin.sender.state.totalSentBytes == AddBytes(sender.state.totalSentBytes, |bytes|)
      && fin.sender.rev == sender.rev && fin.receiver.rev == receiver.rev
      && (sender.rev == AsWritten ==>
            && fin.sender.state.currentChunkSet == Some(OutboundSet(id, Chunks(bytes), n))
            && fin.sender.state.sentFiles == sender.state.sentFiles + [FileRecord(d, Some(file.uri), false)])
      && (sender.rev == Corrected ==>
            && fin.sender.state.currentChunkSet.None?
            && fin.sender.state.sentFiles == MarkSent(sender.state.sentFiles + [FileRecord(d, Some(file.uri), false)], id))
      && (receiver.rev == AsWritten ==> fin.requests == [SendChunkAckMsg(n)])
      && (receiver.rev == Corrected ==> fin.requests == [])
  {
    var cs := Chunks(bytes);
    var n := CeilDiv(|bytes|);
    ChunksCount(bytes);
    ChunksRoundTrip(bytes);
    var d := RawData(file, kind, id, n);
    AnnounceEstablishes(sender, receiver, file, kind, id, bytes);
    FinalRound(Announce(sender, receiver, file, kind, id, bytes), cs, d);
    MarkReceivedAppended(receiver.state.receivedFiles, d, receiver.platformPath + "/" + d.name);
  }

  /** A request one past the blocks of a still-active chunk set makes the
      as-written sender throw before writing: the round changes nothing but
      consumes the request. */
  lemma ExtraRequestIgnored(net: Net, n: nat)
    requires net.sender.rev == AsWritten
    requires net.sender.state.currentChunkSet.Some?
    requires |net.sender.state.currentChunkSet.value.chunkArray| == n
    requires net.requests == [SendChunkAckMsg(n)]
    ensures Step(net) == net.(requests := [])
  {
    DeliverOne(net.sender, SendChunkAckMsg(n));
    var snd := Deliver(net.sender, net.requests);
    assert snd == net.sender;
    assert Emitted(net.sender, snd) == [];
  }

  /** As written, the request for the nonexistent block n reaches a sender
      whose chunk set is still active; indexing past its blocks throws, so
      nothing is answered and the exchange settles one round later. */
  lemma {:induction false} TransferAsWritten(sender: Peer, receiver: Peer, file: PickedFile, kind: PickKind, id: string, bytes: Bytes)
    requires sender.rev == AsWritten && receiver.rev == AsWritten
    requires 0 < |bytes| && IsArrayIndex(CeilDiv(|bytes|))
    requires FreshId(receiver.state.receivedFiles, id)
    ensures var n := CeilDiv(|bytes|);
      var d := RawData(file, kind, id, n);
      var path := receiver.platformPath + "/" + d.name;
      var fin := Run(Announce(sender, receiver, file, kind, id, bytes), n + 1);
      && fin.requests == []
      && fin.receiver.state.writes == receiver.state.writes + [FileWrite(path, bytes)]
      && fin.receiver.state.receivedFiles == receiver.state.receivedFiles + [FileRecord(d, Some(path), true)]
      && fin.receiver.state.chunkStore.None?
      && fin.sender.state.totalSentBytes == AddBytes(sender.state.totalSentBytes, |bytes|)
      && fin.sender.state.currentChunkSet == Some(OutboundSet(id, Chunks(bytes), n))
      && fin.sender.state.sentFiles == sender.state.sentFiles + [FileRecord(d, Some(file.uri), false)]
  {
    var n := CeilDiv(|bytes|);
    var b := Announce(sender, receiver, file, kind, id, bytes);
    LastRound(sender, receiver, file, kind, id, bytes);
    ChunksCount(bytes);
    RunUnfold(b, n + 1);
    ExtraRequestIgnored(Run(b, n), n);
  }

  /** With both defects repaired the exchange settles after exactly n rounds:
      the sender has dropped its chunk set and marked its record available,
      and the receiver has written the file. */
  lemma {:induction false} TransferCorrected(sender: Peer, receiver: Peer, file: PickedFile, kind: PickKind, id: string, bytes: Bytes)
    requires sender.rev == Corrected && receiver.rev == Corrected
    requires 0 < |bytes| && IsArrayIndex(CeilDiv(|bytes|))
    requires FreshId(receiver.state.receivedFiles, id) && FreshId(sender.state.sentFiles, id)
    ensures var n := CeilDiv(|bytes|);
      var d := RawData(file, kind, id, n);
      var path := receiver.platformPath + "/" + d.name;
      var fin := Run(Announce(sender, receiver, file, kind, id, bytes), n);
      && fin.requests == []
      && fin.receiver.state.writes == receiver.state.writes + [FileWrite(path, bytes)]
      && fin.receiver.state.receivedFiles == receiver.state.receivedFiles + [FileRecord(d, Some(path), true)]
      && fin.sender.state.currentChunkSet.None?
      && fin.sender.state.sentFiles == sender.state.sentFiles + [FileRecord(d, Some(file.uri), true)]
  {
    var n := CeilDiv(|bytes|);
    var d := RawData(file, kind, id, n);
    LastRound(sender, receiver, file, kind, id, bytes);
    MarkSentAppended(sender.state.sentFiles, d, file.uri);
  }

  /** After a completed transfer with the sender repaired but the receiver as
      written: the sender holds no chunk set, the receiver no store, and a
      request for block k is outstanding. */
  ghost predicate Drained(net: Net, k: int) {
    && net.sender.state.currentChunkSet.None?
    && net.receiver.state.chunkStore.None?
    && net.receiver.rev == AsWritten
    && net.requests == [SendChunkAckMsg(k)]
  }

  /** A drained network answers request k with a frame carrying no chunk
      (and a NaN counter), which the receiver cannot decode; it asks for
      k + 1 all the same. */
  lemma DrainedStep(net: Net, k: int)
    requires Drained(net, k)
    ensures Drained(Step(net), k + 1)
  {
    DeliverOne(net.sender, SendChunkAckMsg(k));
    var snd := Receive(net.sender, SendChunkAckMsg(k));
    assert Emitted(net.sender, snd) == [ReceiveChunkAckMsg(None, k)];
    DeliverOne(net.receiver, ReceiveChunkAckMsg(None, k));
    var rcv := Receive(net.receiver, ReceiveChunkAckMsg(None, k));
    assert Emitted(net.receiver, rcv) == [SendChunkAckMsg(k + 1)];
  }

  /** What a drained round does to the sender: it warns that there are no
      chunks to send and its sent-byte counter becomes NaN. */
  lemma DrainedAnswer(net: Net, k: int)
    requires Drained(net, k)
    ensures Step(net).sender.state.totalSentBytes == NaN
    ensures Step(net).sender.state.alerts == net.sender.state.alerts + [NoChunksToSend]
  {
    DeliverOne(net.sender, SendChunkAckMsg(k));
  }

  /** One more round from a drained network leaves it drained, one index on. */
  lemma DrainedRound(x: Net, k: int, m: nat)
    requires m > 0 && Drained(Run(x, m - 1), k - 1)
    ensures Drained(Run(x, m), k)
  {
    RunUnfold(x, m);
    DrainedStep(Run(x, m - 1), k - 1);
  }

  lemma {:induction false} DrainedForever(x: Net, k: int, m: nat)
    requires Drained(x, k)
    ensures Drained(Run(x, m), k + m)
    decreases m
  {
    if m > 0 {
      DrainedForever(x, k, m - 1);
      DrainedRound(x, k + m, m);
    }
  }

  /** With only the sender repaired, the completed exchange leaves the
      network drained with a request for the nonexistent block n. */
  lemma SettlesDrained(sender: Peer, receiver: Peer, file: PickedFile, kind: PickKind, id: string, bytes: Bytes)
    requires sender.rev == Corrected && receiver.rev == AsWritten
    requires 0 < |bytes| && IsArrayIndex(CeilDiv(|bytes|))
    requires FreshId(receiver.state.receivedFiles, id)
    ensures Drained(Run(Announce(sender, receiver, file, kind, id, bytes), CeilDiv(|bytes|)), CeilDiv(|bytes|))
  {
    LastRound(sender, receiver, file, kind, id, bytes);
  }

  /** Repairing only the sender's misspelled read turns the receiver's extra
      request into an exchange that never settles: every round the sender,
      now without a chunk set, answers with an empty frame, and the receiver
      asks for the next index. */
  lemma FixedSenderOnlyNeverSettles(sender: Peer, receiver: Peer, file: PickedFile, kind: PickKind, id: string, bytes: Bytes, m: nat)
    requires sender.rev == Corrected && receiver.rev == AsWritten
    requires 0 < |bytes| && IsArrayIndex(CeilDiv(|bytes|))
    requires FreshId(receiver.state.receivedFiles, id)
    ensures var n := CeilDiv(|bytes|);
      var done := Run(Announce(sender, receiver, file, kind, id, bytes), n);
      && done.requests == [SendChunkAckMsg(n)]
      && Run(done, m).requests == [SendChunkAckMsg(n + m)]
  {
    SettlesDrained(sender, receiver, file, kind, id, bytes);
    DrainedRequests(Run(Announce(sender, receiver, file, kind, id, bytes), CeilDiv(|bytes|)), CeilDiv(|bytes|), m);
  }

  /** A drained network keeps asking for one index more each round. */
  lemma DrainedRequests(done: Net, n: int, m: nat)
    requires Drained(done, n)
    ensures done.requests == [SendChunkAckMsg(n)]
    ensures Run(done, m).requests == [SendChunkAckMsg(n + m)]
  {
    DrainedForever(done, n, m);
  }

  /** An empty file is announced with no blocks; the request for block 0
      indexes past them and is dropped, so the receiver keeps its empty store
      and never writes the file, in either revision. */
  lemma {:induction false} EmptyFileNeverWritten(sender: Peer, receiver: Peer, file: PickedFile, kind: PickKind, id: string, bytes: Bytes, m: nat)
    requires |bytes| == 0 && m > 0
    ensures var d := RawData(file, kind, id, 0);
      var fin := Run(Announce(sender, receiver, file, kind, id, bytes), m);
      && fin.requests == []
      && fin.receiver.state.writes == receiver.state.writes
      && fin.receiver.state.chunkStore == Some(InboundStore(Some(d), []))
      && fin.sender.state.currentChunkSet == Some(OutboundSet(id, [], 0))
    decreases m
  {
    var b := Announce(sender, receiver, file, kind, id, bytes);
    AnnounceEstablishes(sender, receiver, file, kind, id, bytes);
    if m == 1 {
      DeliverOne(b.sender, SendChunkAckMsg(0));
      assert Deliver(b.sender, b.requests) == b.sender;
      assert Step(b) == Net(b.sender, b.receiver, []);
    } else {
      EmptyFileNeverWritten(sender, receiver, file, kind, id, bytes, m - 1);
    }
  }
}
