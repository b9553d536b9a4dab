/** The discovery listener of the send screen (src/screens/SendScreen.tsx:30-82,
    190): the list of nearby devices built from UDP advertisements, one entry
    per device name, and the listener's mount/unmount lifecycle. */
module Discovery {
  import opened Options
  import opened ScanAddress

  /** The fixed UDP port the listener binds. */
  const DiscoveryPort: nat := 57143

  /** A listed device: its advertised name (`undefined` when the packet has
      no '|') and the full packet text. Position, image, animation and the
      random id are presentation only. */
  datatype Device = Device(name: Option<string>, fullAddress: string)

  /** The device name a packet advertises, read exactly as `handleScan` does. */
  function PacketName(msg: string): Option<string> {
    SplitAddress(msg).1
  }

  /** `prevDevices.some(device => device.name === otherDevice)`. */
  predicate Listed(devices: seq<Device>, name: Option<string>) {
    exists i | 0 <= i < |devices| :: devices[i].name == name
  }

  /** The state updater run for every received packet. */
  function OnMessage(devices: seq<Device>, msg: string): (r: seq<Device>)
    ensures Listed(devices, PacketName(msg)) ==> r == devices
    ensures !Listed(devices, PacketName(msg)) ==>
              |r| == |devices| + 1 && r[..|devices|] == devices
              && r[|devices|] == Device(PacketName(msg), msg)
  {
    var name := PacketName(msg);
    if Listed(devices, name) then devices else devices + [Device(name, msg)]
  }

  ghost predicate DistinctNames(devices: seq<Device>) {
    forall i, j :: 0 <= i < j < |devices| ==> devices[i].name != devices[j].name
  }

  /** The updater keeps the names in the list pairwise distinct. */
  lemma OnMessageKeepsDistinct(devices: seq<Device>, msg: string)
    requires DistinctNames(devices)
    ensures DistinctNames(OnMessage(devices, msg))
  {
    var r := OnMessage(devices, msg);
    if !Listed(devices, PacketName(msg)) {
      forall i, j | 0 <= i < j < |r| ensures r[i].name != r[j].name {
        if j == |devices| {
          assert r[i] == devices[i];
        } else {
          assert r[i] == devices[i] && r[j] == devices[j];
        }
      }
    }
  }

  /** The list after a sequence of packets, starting from an empty list. */
  function Discover(msgs: seq<string>): seq<Device>
    decreases |msgs|
  {
    if |msgs| == 0 then [] else OnMessage(Discover(msgs[..|msgs| - 1]), msgs[|msgs| - 1])
  }

  /** The first packet advertising `name`, an independent reference for
      which packet a listed entry should come from. */
  function FirstWithName(msgs: seq<string>, name: Option<string>): (r: Option<string>)
    ensures r.None? <==> forall i :: 0 <= i < |msgs| ==> PacketName(msgs[i]) != name
    ensures r.Some? ==> exists i :: 0 <= i < |msgs| && msgs[i] == r.value && PacketName(msgs[i]) == name
                          && forall j :: 0 <= j < i ==> PacketName(msgs[j]) != name
    decreases |msgs|
  {
    if |msgs| == 0 then None
    else if PacketName(msgs[0]) == name then Some(msgs[0])
    else
      var r := FirstWithName(msgs[1..], name);
      assert forall i :: 1 <= i < |msgs| ==> msgs[i] == msgs[1..][i - 1];
      r
  }

  /** Extending the packets keeps the first packet of a name that already
      had one, and makes the new packet the first one of a name that had none. */
  lemma {:induction false} FirstWithNameSnoc(msgs: seq<string>, msg: string, name: Option<string>)
    ensures FirstWithName(msgs + [msg], name)
         == if FirstWithName(msgs, name).Some? then FirstWithName(msgs, name)
            else if PacketName(msg) == name then Some(msg) else None
    decreases |msgs|
  {
    if |msgs| > 0 {
      assert (msgs + [msg])[1..] == msgs[1..] + [msg];
      FirstWithNameSnoc(msgs[1..], msg, name);
    }
  }

  /** A name once listed stays listed. */
  lemma OnMessageKeepsListed(devices: seq<Device>, msg: string, name: Option<string>)
    requires Listed(devices, name)
    ensures Listed(OnMessage(devices, msg), name)
  {
    var k :| 0 <= k < |devices| && devices[k].name == name;
    assert OnMessage(devices, msg)[k] == devices[k];
  }

  /** The list never has two entries with one name, nor more entries than
      packets. */
  lemma {:induction false} DiscoverDistinct(msgs: seq<string>)
    ensures DistinctNames(Discover(msgs))
    ensures |Discover(msgs)| <= |msgs|
    decreases |msgs|
  {
    if |msgs| > 0 {
      DiscoverDistinct(msgs[..|msgs| - 1]);
      OnMessageKeepsDistinct(Discover(msgs[..|msgs| - 1]), msgs[|msgs| - 1]);
    }
  }

  /** Every advertised name ends up listed. */
  lemma {:induction false} DiscoverListsAll(msgs: seq<string>)
    ensures forall i :: 0 <= i < |msgs| ==> Listed(Discover(msgs), PacketName(msgs[i]))
    decreases |msgs|
  {
    if |msgs| > 0 {
      var prefix := msgs[..|msgs| - 1];
      var msg := msgs[|msgs| - 1];
      DiscoverListsAll(prefix);
      forall i | 0 <= i < |msgs| ensures Listed(Discover(msgs), PacketName(msgs[i])) {
        if i < |prefix| {
          assert msgs[i] == prefix[i];
          OnMessageKeepsListed(Discover(prefix), msg, PacketName(prefix[i]));
        } else if !Listed(Discover(prefix), PacketName(msg)) {
          assert Discover(msgs)[|Discover(prefix)|].name == PacketName(msg);
        }
      }
    }
  }

  /** Each entry holds the first packet that advertised its name. */
  lemma {:induction false} DiscoverKeepsFirst(msgs: seq<string>)
    ensures forall k :: 0 <= k < |Discover(msgs)| ==>
              FirstWithName(msgs, Discover(msgs)[k].name) == Some(Discover(msgs)[k].fullAddress)
    decreases |msgs|
  {
    if |msgs| > 0 {
      var prefix := msgs[..|msgs| - 1];
      var msg := msgs[|msgs| - 1];
      assert msgs == prefix + [msg];
      DiscoverKeepsFirst(prefix);
      DiscoverListsAll(prefix);
      var before := Discover(prefix);
      var after := Discover(msgs);
      forall k | 0 <= k < |after|
        ensures FirstWithName(msgs, after[k].name) == Some(after[k].fullAddress)
      {
        FirstWithNameSnoc(prefix, msg, after[k].name);
        if k < |before| {
          assert after[k] == before[k];
        } else {
          assert after[k] == Device(PacketName(msg), msg);
          assert FirstWithName(prefix, PacketName(msg)).None?;
        }
      }
    }
  }

  /** First packet wins: after any sequence of packets the names in the list
      are pairwise distinct, every advertised name is listed, and each entry
      holds the first packet that advertised its name. */
  lemma DiscoverFirstWins(msgs: seq<string>)
    ensures DistinctNames(Discover(msgs))
    ensures forall i :: 0 <= i < |msgs| ==> Listed(Discover(msgs), PacketName(msgs[i]))
    ensures forall k :: 0 <= k < |Discover(msgs)| ==>
              FirstWithName(msgs, Discover(msgs)[k].name) == Some(Discover(msgs)[k].fullAddress)
    ensures |Discover(msgs)| <= |msgs|
  {
    DiscoverDistinct(msgs);
    DiscoverListsAll(msgs);
    DiscoverKeepsFirst(msgs);
  }

  /** Tapping a listed device parses its stored packet text again, so the
      name the tap connects with is the name the entry is listed under. */
  function Tap(d: Device): (r: ConnectCall)
    ensures r.deviceName == PacketName(d.fullAddress)
  {
    HandleScan(d.fullAddress)
  }

  lemma TapConnectsListedName(msgs: seq<string>, k: nat)
    requires k < |Discover(msgs)|
    ensures Tap(Discover(msgs)[k]).deviceName == Discover(msgs)[k].name
    ensures Discover(msgs)[k].fullAddress in msgs
  {
    DiscoverKeepsFirst(msgs);
  }

  // ------------------------------------------------------------ lifecycle

  /** Which listener setup runs: as written, the async setup returns
      nothing; corrected, it returns the socket it bound. */
  datatype Setup = AsWritten | Corrected

  /** The listener as the screen's effect sees it: whether the screen is
      mounted, how many UDP sockets it has bound (the setup binds with
      `reusePort`, so a socket leaked by an earlier mount does not stop the
      next one), whether the current effect holds a handle it can close,
      and the list the mounted screen shows. */
  datatype Listener = Listener(mounted: bool, sockets: nat, handleHeld: bool, devices: seq<Device>)

  function Unmounted(): Listener {
    Listener(false, 0, false, [])
  }

  /** The mount effect binds one more socket, and the freshly mounted screen
      starts from the empty list of its `useState`. As written, the async
      listener setup returns nothing, so the effect's handle stays
      undefined; the corrected setup returns the socket. */
  function Mount(l: Listener, rev: Setup): (r: Listener)
    ensures r.mounted && r.devices == []
    ensures r.sockets == l.sockets + 1
    ensures r.handleHeld <==> rev == Corrected
  {
    Listener(true, l.sockets + 1, rev == Corrected, [])
  }

  /** The effect's cleanup closes the current socket only through the
      handle, and empties the list in every case. */
  function Unmount(l: Listener): (r: Listener)
    ensures !r.mounted && !r.handleHeld && r.devices == []
    ensures r.sockets == if l.handleHeld && l.sockets > 0 then l.sockets - 1 else l.sockets
  {
    Listener(false, if l.handleHeld && l.sockets > 0 then l.sockets - 1 else l.sockets, false, [])
  }

  /** A packet updates the list only while the screen is mounted and a
      socket is bound. A socket leaked past unmount still receives, but its
      handler calls the state setter of a screen that is gone, which
      changes no list. */
  function OnPacket(l: Listener, msg: string): (r: Listener)
    ensures !(l.mounted && l.sockets > 0) ==> r == l
    ensures l.mounted && l.sockets > 0 ==> r == l.(devices := OnMessage(l.devices, msg))
  {
    if l.mounted && l.sockets > 0 then l.(devices := OnMessage(l.devices, msg)) else l
  }

  function ReceiveAll(l: Listener, msgs: seq<string>): Listener
    decreases |msgs|
  {
    if |msgs| == 0 then l else OnPacket(ReceiveAll(l, msgs[..|msgs| - 1]), msgs[|msgs| - 1])
  }

  /** Receiving packets on a mounted screen with a bound socket builds the
      discovery list and leaves the socket and handle as they were. */
  lemma {:induction false} ReceiveAllKeepsSocket(l: Listener, msgs: seq<string>)
    requires l.mounted && l.sockets > 0 && l.devices == []
    ensures ReceiveAll(l, msgs) == l.(devices := Discover(msgs))
    decreases |msgs|
  {
    if |msgs| > 0 {
      ReceiveAllKeepsSocket(l, msgs[..|msgs| - 1]);
    }
  }

  /** Packets reaching a leaked socket after unmount change nothing. */
  lemma {:induction false} ReceiveAllUnmounted(l: Listener, msgs: seq<string>)
    requires !l.mounted
    ensures ReceiveAll(l, msgs) == l
    decreases |msgs|
  {
    if |msgs| > 0 {
      ReceiveAllUnmounted(l, msgs[..|msgs| - 1]);
    }
  }

  /** As written, leaving the screen after any packets empties the list but
      leaves the UDP socket bound: the cleanup has no handle to close. */
  lemma UnmountLeavesSocketBound(msgs: seq<string>)
    ensures var l := Unmount(ReceiveAll(Mount(Unmounted(), AsWritten), msgs));
      l.devices == [] && l.sockets == 1 && !l.mounted
  {
    ReceiveAllKeepsSocket(Mount(Unmounted(), AsWritten), msgs);
  }

  /** With the setup returning its socket, leaving the screen releases the
      socket and empties the list, back to the unmounted state. */
  lemma UnmountReleasesSocket(msgs: seq<string>)
    ensures Unmount(ReceiveAll(Mount(Unmounted(), Corrected), msgs)) == Unmounted()
  {
    ReceiveAllKeepsSocket(Mount(Unmounted(), Corrected), msgs);
  }

  /** Visiting the screen, leaving it as written, catching packets on the
      leaked socket and coming back: the returning screen lists only what
      it receives itself, while both sockets stay bound. */
  lemma {:induction false} RemountStartsAfresh(first: seq<string>, stray: seq<string>, second: seq<string>, rev: Setup)
    ensures var gone := ReceiveAll(Unmount(ReceiveAll(Mount(Unmounted(), AsWritten), first)), stray);
      var back := ReceiveAll(Mount(gone, rev), second);
      gone.devices == [] && gone.sockets == 1
      && back.devices == Discover(second) && back.sockets == 2
  {
    var left := Unmount(ReceiveAll(Mount(Unmounted(), AsWritten), first));
    UnmountLeavesSocketBound(first);
    ReceiveAllUnmounted(left, stray);
    ReceiveAllKeepsSocket(Mount(left, rev), second);
  }
}
