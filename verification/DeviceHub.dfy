/** The hub object of DeviceHub.hpp: device records that its methods change in place, found by number or by name. */
module DeviceHub {
  import opened Bytes
  import opened Messages
  import opened DeviceSpec
  import opened Codec
  import opened HubSpec
  import HubRuns
  import N = NodeSpec
  import H = RsHandler

  class DeviceWrapper {
    var name: Name
    var version: DeviceVersion
    var state: DeviceState
    var pending: Option<Pending>
    var nextCall: int
    var lastAck: int
    var lastHealthReq: int
    var commandQueue: seq<(byte, byte)>
    var requestQueue: seq<(byte, byte)>
    var telemSched: seq<Telemetry>
    var timeoutCounter: nat
    var fileTransContext: Transfer

    ghost function View(): Device
      reads this
    {
      Device(name, version, state, pending, nextCall, lastAck, lastHealthReq, commandQueue, requestQueue, telemSched,
             timeoutCounter, fileTransContext)
    }

    constructor ()
      ensures View() == NEW_DEVICE
    {
      name, version, state, pending := [], NO_VERSION, InfoRequest, None;
      nextCall, lastAck, lastHealthReq := 0, 0, 0;
      commandQueue, requestQueue, telemSched, timeoutCounter, fileTransContext := [], [], [], 0, FRESH;
    }

    /** `updateDevicePending` */
    method UpdatePending(number: byte, msgType: byte, now: int)
      modifies this`pending
      ensures pending == Some(Pending(number, msgType, now))
    {
      pending := Some(Pending(number, msgType, now));
    }
  }

  lemma ReplyKeepsNames(node: N.Node, h: Hub, to: byte, number: byte, code: byte)
    ensures WellNamed(Replied(node, h, to, number, code)) <==> WellNamed(h)
  {
    hide Table;
  }

  lemma AckKeepsName(dev: Device, number: byte, code: byte, now: int)
    ensures HandleAck(dev, number, code, now).0.name == dev.name
  {
  }

  lemma TellTwice(observed: bool, reports: seq<(Name, Report)>, name: Name, news: seq<Report>, more: seq<Report>)
    ensures Tell(observed, Tell(observed, reports, name, news), name, more)
            == Tell(observed, reports, name, news + more)
  {
    if observed {
      var a := seq(|news|, i requires 0 <= i < |news| => (name, news[i]));
      var b := seq(|more|, i requires 0 <= i < |more| => (name, more[i]));
      var all := news + more;
      assert seq(|all|, i requires 0 <= i < |all| => (name, all[i])) == a + b;
      assert (reports + a) + b == reports + (a + b);
    }
  }

  lemma NothingToTell(observed: bool, reports: seq<(Name, Report)>, name: Name)
    ensures Tell(observed, reports, name, []) == reports
  {
  }

  // A chunk about to be sent leaves room for the rest of its frame.
  predicate RoomFor(size: nat, act: Act) {
    act.body.Some? && act.body.value.FileWriteChunk? ==> |act.body.value.chunk| + 8 <= size
  }

  /** A buffer for a chunk as long as the chunk size, or as the file, or as a byte can tell, is always enough. */
  lemma EnoughRoom(size: nat, dev: Device, addr: byte)
    requires 0xFF + 8 <= size || dev.transfer.chunkSize + 8 <= size || |dev.transfer.data| + 8 <= size
    ensures RoomFor(size, ActSending(dev, addr))
  {
    ChunkIsLeft(dev.transfer);
  }

  // The chunk a device's turn sends, if it sends one, can be written.
  ghost predicate TurnFits(size: nat, h: Hub, uid: byte, time: int) {
    uid in h.devices ==>
      var dev := h.devices[uid];
      dev.nextCall <= time && dev.state == FileTransfer && dev.transfer.state == Sending ==>
        RoomFor(size, ActSending(dev, Address(h.names, dev.name)))
  }

  lemma TurnFitsStill(size: nat, h: Hub, later: Hub, uid: byte, time: int)
    requires TurnFits(size, h, uid, time) && later.names == h.names && uid in h.devices && uid in later.devices
    requires later.devices[uid] == h.devices[uid]
    ensures TurnFits(size, later, uid, time)
  {
  }

  class DeviceHub {
    const base: H.RsHandler
    const crcFile: seq<byte> -> uint64
    const blobVerdict: seq<(Name, Report)> -> byte  // the observer's answer to a blob, given all it was told
    var hub: map<byte, DeviceWrapper>
    var nameToUid: map<Name, byte>
    var temporaryUid: Option<byte>
    var observed: bool
    var reports: seq<(Name, Report)>

    ghost function View(): Hub
      reads this, hub.Values, base
    {
      Hub(map u | u in hub :: hub[u].View(), nameToUid, temporaryUid, base.View(), observed, reports)
    }

    ghost predicate Sound()
      reads this, hub.Values, base, base.parser, base.parser.buffer
    {
      && base.Valid()
      && (forall u, v :: u in hub && v in hub && u != v ==> hub[u] != hub[v])
    }

    ghost predicate Valid()
      reads this, hub.Values, base, base.parser, base.parser.buffer
    {
      Sound() && WellNamed(View())
    }

    constructor (base: H.RsHandler, crcFile: seq<byte> -> uint64, blobVerdict: seq<(Name, Report)> -> byte)
      requires base.Valid()
      ensures Valid() && this.base == base && View() == EmptyHub(base.View().number).(traffic := base.View())
    {
      this.base, this.crcFile, this.blobVerdict := base, crcFile, blobVerdict;
      hub, nameToUid, temporaryUid, observed, reports := map[], map[], None, false, [];
    }

    method RegisterObserver()
      requires Valid()
      modifies this`observed
      ensures Valid() && View() == old(View()).(observed := true)
    {
      hide H.RsHandler.Valid, Table;
      observed := true;
      assert View().devices == old(View()).devices;
    }

    method Report(name: Name, news: DeviceSpec.Report)
      modifies this`reports
      ensures reports == Tell(observed, old(reports), name, [news])
    {
      if observed {
        reports := reports + [(name, news)];
      }
    }

    /** `getUIDFromName` */
    method GetUidFromName(name: Name) returns (uid: byte)
      ensures uid == Address(nameToUid, name)
    {
      if name in nameToUid {
        return nameToUid[name];
      }
      return RESERVED_UID;
    }

    // ----- senders, which look the device up by its name again -----

    // A device is found by its own name, or not at all.
    ghost predicate Leads(name: Name, dev: DeviceWrapper)
      reads this
    {
      var uid := Address(nameToUid, name);
      uid != RESERVED_UID ==> uid in hub && hub[uid] == dev
    }

    twostate predicate Sends(dev: DeviceWrapper, name: Name, body: Body, now: int)
      reads this, base, dev
    {
      var uid := Address(nameToUid, name);
      if uid == RESERVED_UID then base.View() == old(base.View()) && dev.View() == old(dev.View())
      else
        && base.View() == Initiate(base.node, old(base.View()), uid, body)
        && dev.View() == old(dev.View()).(pending := Some(Pending(base.View().number, TypeOf(body), now)))
    }

    method CmdToDeviceImpl(ghost same: DeviceWrapper, name: Name, command: byte, value: byte, now: int)
      requires base.Valid() && Leads(name, same)
      modifies base, base.messageBuffer, same
      ensures base.Valid() && Sends(same, name, Command(command, value), now)
    {
      hide N.Written;
      var devUid := GetUidFromName(name);
      if devUid == RESERVED_UID {
        return;
      }
      var dev := hub[devUid];
      var number := base.SendCommand(devUid, command, value);
      dev.UpdatePending(number, COMMAND, now);
    }

    method DeviceRequestImpl(ghost same: DeviceWrapper, name: Name, request: byte, size: byte, now: int)
      requires base.Valid() && Leads(name, same)
      modifies base, base.messageBuffer, same
      ensures base.Valid() && Sends(same, name, BlobRequest(request, size), now)
    {
      hide N.Written;
      var devUid := GetUidFromName(name);
      if devUid == RESERVED_UID {
        return;
      }
      var dev := hub[devUid];
      var number := base.SendBlobRequest(devUid, request, size);
      dev.UpdatePending(number, BLOB_REQUEST, now);
    }

    method DeviceHealthReqImpl(ghost same: DeviceWrapper, name: Name, now: int)
      requires base.Valid() && Leads(name, same)
      modifies base, base.messageBuffer, same
      ensures base.Valid() && Sends(same, name, HealthReq, now)
    {
      hide N.Written;
      var devUid := GetUidFromName(name);
      if devUid == RESERVED_UID {
        return;
      }
      var dev := hub[devUid];
      var number := base.SendHealthRequest(devUid);
      dev.UpdatePending(number, HEALTH_REQ, now);
    }

    // The size is cast to 32 bits.
    method DeviceFileWriteRequestImpl(ghost same: DeviceWrapper, name: Name, file: byte, size: nat, now: int)
      requires base.Valid() && Leads(name, same)
      modifies base, base.messageBuffer, same
      ensures base.Valid() && Sends(same, name, FileWriteRequest(file, size % 0x1_0000_0000), now)
    {
      hide N.Written;
      var devUid := GetUidFromName(name);
      if devUid == RESERVED_UID {
        return;
      }
      var dev := hub[devUid];
      var number := base.FileWriteRequest(devUid, file, size % 0x1_0000_0000);
      dev.UpdatePending(number, FILE_WRITE_REQUEST, now);
    }

    method SendChunkImpl(ghost same: DeviceWrapper, name: Name, file: byte, chunk: Blob, now: int)
      requires base.Valid() && Leads(name, same)
      requires Address(nameToUid, name) != RESERVED_UID && file == same.fileTransContext.file ==>
                 |chunk| + 8 <= base.node.size
      modifies base, base.messageBuffer, same
      ensures base.Valid()
      ensures file == old(same.fileTransContext.file) ==> Sends(same, name, FileWriteChunk(file, chunk), now)
      ensures file != old(same.fileTransContext.file) ==>
                base.View() == old(base.View()) && same.View() == old(same.View())
    {
      hide N.Written;
      var devUid := GetUidFromName(name);
      if devUid == RESERVED_UID {
        return;
      }
      var dev := hub[devUid];
      if file != dev.fileTransContext.file {
        return;
      }
      var number := base.FileWriteChunk(devUid, dev.fileTransContext.file, chunk);
      dev.UpdatePending(number, FILE_WRITE_CHUNK, now);
    }

    method FileWriteFinalizeImpl(ghost same: DeviceWrapper, name: Name, file: byte, chunks: uint16, crc: uint64,
      now: int)
      requires base.Valid() && Leads(name, same)
      modifies base, base.messageBuffer, same
      ensures base.Valid() && Sends(same, name, FileWriteFinalize(file, chunks, crc), now)
    {
      hide N.Written;
      var devUid := GetUidFromName(name);
      if devUid == RESERVED_UID {
        return;
      }
      var dev := hub[devUid];
      var number := base.FileWriteFinalize(devUid, file, chunks, crc);
      dev.UpdatePending(number, FILE_WRITE_FINALIZE, now);
    }

    // ----- one device's turn -----

    // The device has acted: what it did to its record, what it sent, and what was reported.
    twostate predicate Did(dev: DeviceWrapper, act: Act, now: int)
      reads this, base, dev
    {
      && reports == Tell(observed, old(reports), act.dev.name, act.reports)
      && match act.body
         case None => base.View() == old(base.View()) && dev.View() == act.dev
         case Some(body) =>
           && base.View() == Initiate(base.node, old(base.View()), act.to, body)
           && dev.View() == act.dev.(pending := Some(Pending(base.View().number, TypeOf(body), now)))
    }

    // All due units are marked, and the last of them is returned.
    method MarkDueUnits(dev: DeviceWrapper, time: int) returns (telem: Option<Telemetry>)
      modifies dev`telemSched
      ensures telem == LastDue(old(dev.telemSched), time)
      ensures dev.telemSched == if telem == None then old(dev.telemSched) else MarkDue(old(dev.telemSched), time)
    {
      ghost var sched := dev.telemSched;
      telem := None;
      for i := 0 to |dev.telemSched|
        invariant |dev.telemSched| == |sched|
        invariant forall k :: 0 <= k < i ==> dev.telemSched[k] == MarkDue(sched, time)[k]
        invariant forall k :: i <= k < |sched| ==> dev.telemSched[k] == sched[k]
        invariant telem == LastDue(sched[..i], time)
        invariant telem == None ==> forall k :: 0 <= k < i ==> !Due(sched[k], time)
      {
        assert sched[..i + 1][..i] == sched[..i];
        if Due(dev.telemSched[i], time) {
          telem := Some(dev.telemSched[i]);
          dev.telemSched := dev.telemSched[i := dev.telemSched[i].(lastUpdateTime := time)];
        }
      }
      assert sched[..|sched|] == sched;
    }

    method ProcessRunning(dev: DeviceWrapper, time: int, now: int)
      requires base.Valid() && Leads(dev.name, dev)
      modifies base, base.messageBuffer, dev
      ensures base.Valid()
      ensures var act := ActRunning(old(dev.View()), Address(nameToUid, old(dev.name)), time);
              Did(dev, act, now) && act.updateTime == 100
    {
      hide H.RsHandler.Valid, Initiate;
      if dev.commandQueue != [] {
        var val := dev.commandQueue[0];
        dev.commandQueue := dev.commandQueue[1..];
        CmdToDeviceImpl(dev, dev.name, val.0, val.1, now);
      } else if dev.requestQueue != [] {
        var request := dev.requestQueue[0];
        dev.requestQueue := dev.requestQueue[1..];
        DeviceRequestImpl(dev, dev.name, request.0, request.1, now);
      } else if time - dev.lastHealthReq >= HEALTH_PERIOD {
        dev.lastHealthReq := time;
        DeviceHealthReqImpl(dev, dev.name, now);
      } else {
        var telem := MarkDueUnits(dev, time);
        if telem.Some? {
          DeviceRequestImpl(dev, dev.name, telem.value.req, telem.value.reqSize, now);
        }
      }
    }

    // The piece of the file after the offset, its length cast to a byte.
    method ChunkAt(dev: DeviceWrapper) returns (chunk: Blob)
      ensures chunk == NextChunk(dev.fileTransContext)
    {
      var t := dev.fileTransContext;
      var length := Piece(|t.data| - t.sentOffset, t.chunkSize);
      chunk := t.data[t.sentOffset..t.sentOffset + length];
    }

    // The chunk that a transfer sends next, if it does, can be written; the source leaves that to its caller.
    ghost predicate SendingFits(dev: DeviceWrapper)
      reads this, dev
    {
      RoomFor(base.node.size, ActSending(dev.View(), Address(nameToUid, dev.name)))
    }

    // The record and the traffic after an acknowledgement, which is still in the record; the caller clears it.
    twostate predicate TookAck(dev: DeviceWrapper, updateTime: int, now: int)
      reads this, base, dev
    {
      var act := ActSending(old(dev.View()), Address(nameToUid, old(dev.name)));
      && updateTime == act.updateTime && act.reports == []
      && base.View() == (if act.body == None then old(base.View())
                         else Initiate(base.node, old(base.View()), act.to, act.body.value))
      && dev.View().(transfer := dev.fileTransContext.(packetAck := None))
         == if act.body == None then act.dev
            else act.dev.(pending := Some(Pending(base.View().number, FILE_WRITE_CHUNK, now)))
    }

    // The chunk has been taken: the next one, or the end of the file.
    method AfterOk(dev: DeviceWrapper, lastChunk: Blob, now: int) returns (updateTime: int)
      requires base.Valid() && Leads(dev.name, dev) && SendingFits(dev) && lastChunk == NextChunk(dev.fileTransContext)
      requires !dev.fileTransContext.firstPacket && dev.fileTransContext.packetAck == Some(OK)
      modifies base, base.messageBuffer, dev
      ensures base.Valid() && TookAck(dev, updateTime, now)
    {
      hide H.RsHandler.Valid, Initiate, NextChunk;
      updateTime := 100;
      ChunkIsLeft(dev.fileTransContext);
      dev.fileTransContext := dev.fileTransContext.(
        sentOffset := dev.fileTransContext.sentOffset + |lastChunk|, chunkSent := dev.fileTransContext.chunkSent + 1);
      if dev.fileTransContext.sentOffset == |dev.fileTransContext.data| {
        dev.fileTransContext := dev.fileTransContext.(state := Finalize);
        updateTime := 500;
      } else {
        var nextChunk := ChunkAt(dev);
        SameChunk(dev.fileTransContext, dev.fileTransContext.(packetAck := None));
        SendChunkImpl(dev, dev.name, dev.fileTransContext.file, nextChunk, now);
      }
    }

    method AfterAck(dev: DeviceWrapper, code: byte, now: int) returns (updateTime: int)
      requires base.Valid() && Leads(dev.name, dev) && SendingFits(dev)
      requires !dev.fileTransContext.firstPacket && dev.fileTransContext.packetAck == Some(code)
      modifies base, base.messageBuffer, dev
      ensures base.Valid() && TookAck(dev, updateTime, now)
    {
      hide H.RsHandler.Valid, Initiate, NextChunk;
      updateTime := 100;
      var lastChunk := ChunkAt(dev);
      if code == BUSY {
        SendChunkImpl(dev, dev.name, dev.fileTransContext.file, lastChunk, now);
      } else if code == WAIT {
        updateTime := 200;
      } else if code == OK {
        updateTime := AfterOk(dev, lastChunk, now);
      } else {
        dev.fileTransContext := dev.fileTransContext.(state := Cancel);
      }
    }

    method ProcessSending(dev: DeviceWrapper, now: int) returns (updateTime: int)
      requires base.Valid() && Leads(dev.name, dev) && SendingFits(dev)
      modifies base, base.messageBuffer, dev
      ensures base.Valid()
      ensures var act := ActSending(old(dev.View()), Address(nameToUid, old(dev.name)));
              Did(dev, act, now) && updateTime == act.updateTime
    {
      hide H.RsHandler.Valid, Initiate, NextChunk;
      updateTime := 100;
      if dev.fileTransContext.firstPacket {
        var chunk := ChunkAt(dev);
        SendChunkImpl(dev, dev.name, dev.fileTransContext.file, chunk, now);
        dev.fileTransContext := dev.fileTransContext.(firstPacket := false);
      } else if dev.fileTransContext.packetAck == None {
        dev.fileTransContext := dev.fileTransContext.(state := Cancel);
      } else {
        updateTime := AfterAck(dev, dev.fileTransContext.packetAck.value, now);
        dev.fileTransContext := dev.fileTransContext.(packetAck := None);
      }
    }

    // What a cancelled transfer reports.
    function ResultOf(packetAck: Option<byte>): byte {
      match packetAck case Some(code) => code case None => ERROR
    }

    ghost predicate Fits(dev: DeviceWrapper)
      reads this, dev
    {
      dev.state == FileTransfer && dev.fileTransContext.state == Sending ==> SendingFits(dev)
    }

    method ProcessTransfer(dev: DeviceWrapper, now: int) returns (updateTime: int)
      requires base.Valid() && Leads(dev.name, dev) && dev.state == FileTransfer && Fits(dev)
      modifies this`reports, base, base.messageBuffer, dev
      ensures base.Valid()
      ensures var act := ActTransfer(crcFile, old(dev.View()), Address(nameToUid, old(dev.name)));
              Did(dev, act, now) && updateTime == act.updateTime
    {
      hide H.RsHandler.Valid, Initiate, ActSending;
      updateTime := 100;
      match dev.fileTransContext.state {
        case Request =>
          DeviceFileWriteRequestImpl(dev, dev.name, dev.fileTransContext.file, |dev.fileTransContext.data|, now);
          updateTime := 50;
        case Sending =>
          updateTime := ProcessSending(dev, now);
        case Finalize =>
          var crc := crcFile(dev.fileTransContext.data);
          FileWriteFinalizeImpl(dev, dev.name, dev.fileTransContext.file, dev.fileTransContext.chunkSent % 0x1_0000,
            crc, now);
          updateTime := 500;
        case Cancel =>
          dev.fileTransContext := FRESH;
          dev.state := Running;
          Report(dev.name, FileWriteResult(ResultOf(dev.fileTransContext.packetAck)));
      }
    }

    // A device not in operation: lost and probed, or found and asked for its name.
    method ProcessDiscovery(dev: DeviceWrapper, now: int) returns (updateTime: int)
      requires base.Valid() && dev.state != Running && dev.state != FileTransfer
      modifies this`reports, this`temporaryUid, base, base.messageBuffer, dev
      ensures base.Valid()
      ensures var act := ActOn(crcFile, old(dev.View()), Address(nameToUid, old(dev.name)), old(temporaryUid), 0);
              Did(dev, act, now) && updateTime == act.updateTime
      ensures temporaryUid == if old(dev.state) == InfoRequest then None else old(temporaryUid)
    {
      hide H.RsHandler.Valid, N.Written, ActRunning, ActTransfer;
      updateTime := 100;
      match dev.state {
        case Probing =>
          var uid := GetUidFromName(dev.name);
          var number := base.SendProbe(uid);
          dev.UpdatePending(number, PROBE, now);
          updateTime := 1000;
        case InfoRequest =>
          if temporaryUid.Some? {
            var number := base.SendDeviceInfoRequest(temporaryUid.value);
            dev.UpdatePending(number, DEVICE_INFO_REQ, now);
            temporaryUid := None;
          } else {
            var uid := GetUidFromName(dev.name);
            var number := base.SendDeviceInfoRequest(uid);
            dev.UpdatePending(number, DEVICE_INFO_REQ, now);
          }
          updateTime := 1000;
        case Lost =>
          Report(dev.name, DeviceLost);
          dev.state := DeviceState.Probing;
        case Suspended =>
      }
    }

    method ActOnDevice(dev: DeviceWrapper, time: int, now: int) returns (updateTime: int)
      requires base.Valid() && Leads(dev.name, dev) && Fits(dev)
      modifies this`reports, this`temporaryUid, base, base.messageBuffer, dev
      ensures base.Valid()
      ensures var act := ActOn(crcFile, old(dev.View()), Address(nameToUid, old(dev.name)), old(temporaryUid), time);
              Did(dev, act, now) && updateTime == act.updateTime
      ensures temporaryUid == if old(dev.state) == InfoRequest then None else old(temporaryUid)
    {
      hide H.RsHandler.Valid, Initiate, ActRunning, ActTransfer;
      updateTime := 100;
      if dev.state == Running {
        ProcessRunning(dev, time, now);
      } else if dev.state == FileTransfer {
        updateTime := ProcessTransfer(dev, now);
      } else {
        updateTime := ProcessDiscovery(dev, now);
      }
    }

    twostate predicate DeviceTurn(dev: DeviceWrapper, time: int, now: int)
      reads this, base, dev
    {
      var was := old(dev.View());
      var s := Scheduled(crcFile, was, Address(nameToUid, was.name), old(temporaryUid), old(base.View()).number,
        time, now);
      && dev.View() == s.dev
      && base.View() == (if s.sent == None then old(base.View())
                         else Initiate(base.node, old(base.View()), s.to, s.sent.value))
      && temporaryUid == (if was.state == InfoRequest && was.nextCall <= time then None else old(temporaryUid))
      && reports == Tell(observed, old(reports), s.dev.name, s.reports)
    }

    /** `processDevice` */
    method ProcessDevice(dev: DeviceWrapper, time: int, now: int)
      requires base.Valid() && Leads(dev.name, dev) && (dev.nextCall <= time ==> Fits(dev))
      modifies this`reports, this`temporaryUid, base, base.messageBuffer, dev
      ensures base.Valid()
      ensures DeviceTurn(dev, time, now)
    {
      hide H.RsHandler.Valid, N.Written, ActOn;
      NothingToTell(observed, reports, dev.name);
      if time >= dev.nextCall {
        var updateTime := ActOnDevice(dev, time, now);
        dev.nextCall := time + updateTime;
      }
    }

    // The timeout check that follows a device's turn.
    method CheckTimeout(dev: DeviceWrapper, time: int)
      modifies this`reports, dev
      ensures dev.View() == if TimedOut(old(dev.View()), time) then AfterTimeout(old(dev.View())) else old(dev.View())
      ensures reports == if TimedOut(old(dev.View()), time)
                         then Tell(observed, old(reports), dev.name, [AckNotReceived(old(dev.pending.value.msgType))])
                         else old(reports)
    {
      if dev.pending.Some? && time - dev.pending.value.timestamp >= ACK_TIMEOUT {
        dev.timeoutCounter := dev.timeoutCounter + 1;
        if dev.timeoutCounter >= TIMEOUTS_FOR_LOST {
          dev.timeoutCounter := 0;
          dev.state := DeviceState.Lost;
        }
        Report(dev.name, AckNotReceived(dev.pending.value.msgType));
        if dev.state == FileTransfer {
          dev.fileTransContext := dev.fileTransContext.(state := Cancel);
        }
        dev.pending := None;
      }
    }

    twostate predicate Ticked(dev: DeviceWrapper, time: int, now: int)
      reads this, base, dev
    {
      var was := old(dev.View());
      var t := Tick(crcFile, was, Address(nameToUid, was.name), old(temporaryUid), old(base.View()).number, time, now);
      && dev.View() == t.dev
      && base.View() == (if t.sent == None then old(base.View())
                         else Initiate(base.node, old(base.View()), t.to, t.sent.value))
      && temporaryUid == (if was.state == InfoRequest && was.nextCall <= time then None else old(temporaryUid))
      && reports == Tell(observed, old(reports), t.dev.name, t.reports)
    }

    // The body of the loop in `process`.
    method ProcessOne(dev: DeviceWrapper, time: int, now: int)
      requires base.Valid() && Leads(dev.name, dev) && (dev.nextCall <= time ==> Fits(dev))
      modifies this`reports, this`temporaryUid, base, base.messageBuffer, dev
      ensures base.Valid() && Ticked(dev, time, now)
    {
      hide H.RsHandler.Valid, Initiate, Scheduled;
      ghost var was := reports;
      ProcessDevice(dev, time, now);
      ghost var s := Scheduled(crcFile, old(dev.View()), Address(nameToUid, old(dev.name)), old(temporaryUid),
                               old(base.View()).number, time, now);
      CheckTimeout(dev, time);
      if TimedOut(s.dev, time) {
        TellTwice(observed, was, s.dev.name, s.reports, [AckNotReceived(s.dev.pending.value.msgType)]);
      }
    }

    // By its own name a device is found at its own number.
    lemma LeadsHome(uid: byte)
      requires Valid() && uid in hub
      ensures Leads(hub[uid].name, hub[uid])
    {
      assert View().devices[uid] == hub[uid].View();
      assert KnownBy(nameToUid, uid, hub[uid].View());
      hide H.RsHandler.Valid;
    }

    // If just one device's record has changed, that is the whole change of the table.
    twostate lemma OneRecordChanged(uid: byte)
      requires old(Sound()) && base.Valid()
      requires uid in hub && hub == old(hub)
      requires forall u :: u in hub && u != uid ==> hub[u].View() == old(hub[u].View())
      ensures Sound() && View().devices == old(View()).devices[uid := hub[uid].View()]
    {
      hide H.RsHandler.Valid;
    }

    method ProcessAt(uid: byte, time: int, now: int)
      requires Valid() && uid in hub && TurnFits(base.node.size, View(), uid, time)
      modifies this`reports, this`temporaryUid, base, base.messageBuffer, hub[uid]
      ensures Sound() && View() == Turn(crcFile, base.node, old(View()), uid, time, now)
    {
      hide H.RsHandler.Valid, Initiate, Tick, WellNamed, Tell;
      var dev := hub[uid];
      LeadsHome(uid);
      assert View().devices[uid] == dev.View();
      ProcessOne(dev, time, now);
      OneRecordChanged(uid);
    }

    /** `process` */
    method Process(time: int, clock: byte -> int)
      requires Valid() && forall u :: u in hub ==> TurnFits(base.node.size, View(), u, time)
      modifies this`reports, this`temporaryUid, base, base.messageBuffer, hub.Values
      ensures Valid() && View() == Turns(crcFile, base.node, old(View()), 0x100, time, clock)
    {
      hide H.RsHandler.Valid, Turn, WellNamed, TurnFits;
      for uid := 0 to 0x100
        invariant Sound()
        invariant View() == Turns(crcFile, base.node, old(View()), uid, time, clock)
        invariant WellNamed(View())
      {
        HubRuns.TurnsAreWellNamed(crcFile, base.node, old(View()), uid + 1, time, clock);
        HubRuns.TurnsTouchEachOnce(crcFile, base.node, old(View()), uid, time, clock);
        if uid in hub {
          TurnFitsStill(base.node.size, old(View()), View(), uid, time);
          ProcessAt(uid, time, clock(uid));
        }
      }
    }

    // ----- answers -----

    // An acknowledgement of the pending message, by the state of the device and what was sent.
    method AckInState(dev: DeviceWrapper, code: byte)
      requires dev.pending.Some?
      modifies this`reports, dev
      ensures var (next, news) := AckMeans(old(dev.View()), code);
              dev.View() == next && reports == Tell(observed, old(reports), old(dev.name), news)
    {
      NothingToTell(observed, reports, dev.name);
      var msgType := dev.pending.value.msgType;
      match dev.state {
        case Probing =>
          dev.state := DeviceState.InfoRequest;
        case Running =>
          if msgType == COMMAND {
            Report(dev.name, CommandResult(code));
          } else if msgType == BLOB_REQUEST {
            Report(dev.name, RequestError(code));
          }
        case FileTransfer =>
          if msgType == FILE_WRITE_CHUNK {
            dev.fileTransContext := dev.fileTransContext.(packetAck := Some(code));
          } else if msgType == FILE_WRITE_REQUEST {
            if code == OK {
              dev.fileTransContext := dev.fileTransContext.(state := Sending);
            } else {
              dev.fileTransContext := dev.fileTransContext.(state := Cancel);
            }
          } else if msgType == FILE_WRITE_FINALIZE {
            dev.state := Running;
            Report(dev.name, FileWriteResult(code));
          }
        case _ =>
      }
    }

    method AckFor(dev: DeviceWrapper, number: byte, code: byte, now: int)
      modifies this`reports, dev
      ensures var (next, news) := DeviceSpec.HandleAck(old(dev.View()), number, code, now);
              dev.View() == next && reports == Tell(observed, old(reports), old(dev.name), news)
    {
      hide AckMeans, Tell;
      NothingToTell(observed, reports, dev.name);
      ghost var was, name := reports, dev.name;
      dev.lastAck := now;
      if dev.pending.Some? && dev.pending.value.number == number {
        var received := AckReceived(dev.pending.value.msgType, code);
        Report(dev.name, received);
        ghost var news := AckMeans(dev.View(), code).1;
        AckInState(dev, code);
        TellTwice(observed, was, name, [received], news);
        dev.pending := None;
      }
    }

    twostate lemma OneRecordAdded(uid: byte, new dev: DeviceWrapper)
      requires old(Sound()) && base.Valid()
      requires uid !in old(hub) && hub == old(hub)[uid := dev]
      requires forall u :: u in old(hub) ==> hub[u] != dev && hub[u].View() == old(hub[u].View())
      ensures Sound() && View().devices == old(View()).devices[uid := dev.View()]
    {
      hide H.RsHandler.Valid;
    }

    // A device that acknowledges for the first time.
    method Register(from: byte)
      requires Sound() && from !in hub
      modifies this`hub, this`temporaryUid
      ensures Sound()
      ensures View() == old(View()).(devices := old(View()).devices[from := NEW_DEVICE], temporaryUid := Some(from))
    {
      hide H.RsHandler.Valid;
      var dev := new DeviceWrapper();
      hub := hub[from := dev];
      temporaryUid := Some(from);
      OneRecordAdded(from, dev);
    }

    method AckFrom(from: byte, number: byte, code: byte, now: int)
      requires Sound() && from in hub
      modifies this`reports, hub[from]
      ensures Sound() && View() == OnAck(old(View()), from, number, code, now)
    {
      hide H.RsHandler.Valid, Tell, DeviceSpec.HandleAck;
      AckKeepsName(hub[from].View(), number, code, now);
      AckFor(hub[from], number, code, now);
      OneRecordChanged(from);
    }

    /** `handleAck` */
    method HandleAck(from: byte, number: byte, code: byte, now: int)
      requires Valid()
      modifies this`hub, this`temporaryUid, this`reports, hub.Values
      ensures Valid() && View() == OnAck(old(View()), from, number, code, now)
    {
      hide Sound, WellNamed, Handled;
      HubRuns.OperationsAreWellNamed(crcFile, base.node, View(), HubRuns.AckFrom(from, number, code, now));
      if from !in hub {
        Register(from);
      } else {
        AckFrom(from, number, code, now);
      }
    }

    method InfoFor(dev: DeviceWrapper, from: byte, number: byte, version: DeviceVersion, name: Name)
      modifies this`reports, this`nameToUid, dev
      ensures var (next, news) := HandleInfo(old(dev.View()), number, version, name);
              dev.View() == next && reports == Tell(observed, old(reports), next.name, news)
      ensures nameToUid
              == if InfoAccepted(old(dev.View()), number) then old(nameToUid)[name := from] else old(nameToUid)
    {
      hide Tell;
      NothingToTell(observed, reports, dev.name);
      if dev.pending.Some? && dev.pending.value.number == number && dev.state == InfoRequest {
        dev.pending := None;
        dev.name := name;
        dev.version := version;
        dev.state := Running;
        nameToUid := nameToUid[dev.name := from];
        Report(dev.name, Registered(dev.version));
      }
    }

    method InfoFrom(from: byte, number: byte, version: DeviceVersion, name: Name)
      requires Sound() && from in hub
      modifies this`reports, this`nameToUid, hub[from]
      ensures Sound() && View() == OnInfo(old(View()), from, number, version, name)
    {
      hide H.RsHandler.Valid, Tell, HandleInfo, InfoAccepted;
      InfoFor(hub[from], from, number, version, name);
      OneRecordChanged(from);
    }

    /** `handleDeviceInfoAnswer` */
    method HandleDeviceInfoAnswer(from: byte, number: byte, version: DeviceVersion, name: Name)
      requires Valid()
      modifies this`reports, this`nameToUid, hub.Values
      ensures Sound() && View() == OnInfo(old(View()), from, number, version, name)
      ensures Valid() <==> NamesStayUnique(old(View()), from, number, name)
    {
      hide Sound, WellNamed, Handled, NamesStayUnique;
      HubRuns.OperationsAreWellNamed(crcFile, base.node, View(), HubRuns.InfoFrom(from, number, version, name));
      if from in hub {
        InfoFrom(from, number, version, name);
      }
    }

    method BlobFrom(from: byte, number: byte, request: byte, data: Blob) returns (code: byte)
      requires Sound() && from in hub
      modifies this`reports, hub[from]
      ensures Sound() && View() == OnBlob(old(View()), from, number, request, data)
      ensures code == if old(BlobAccepted(hub[from].View(), number)) && observed then blobVerdict(reports) else ERROR
    {
      hide H.RsHandler.Valid, Tell;
      var dev := hub[from];
      NothingToTell(observed, reports, dev.name);
      code := ERROR;
      if dev.pending.Some? && dev.pending.value.number == number && dev.pending.value.msgType == BLOB_REQUEST {
        dev.pending := None;
        Report(dev.name, BlobReceived(request, data));
        if observed {
          code := blobVerdict(reports);
        }
      }
      OneRecordChanged(from);
    }

    /** `handleBlobAnswer` */
    method HandleBlobAnswer(from: byte, number: byte, request: byte, data: Blob) returns (code: byte)
      requires Valid()
      modifies this`reports, hub.Values
      ensures Valid() && View() == OnBlob(old(View()), from, number, request, data)
      ensures code == if old(from in hub && BlobAccepted(hub[from].View(), number)) && observed
                      then blobVerdict(reports) else ERROR
    {
      hide Sound, WellNamed, Handled, BlobAccepted;
      HubRuns.OperationsAreWellNamed(crcFile, base.node, View(), HubRuns.BlobFrom(from, number, request, data));
      code := ERROR;
      if from in hub {
        code := BlobFrom(from, number, request, data);
      }
    }

    method HealthFrom(from: byte, number: byte, health: byte, flags: uint16)
      requires Sound() && from in hub
      modifies this`reports, hub[from]
      ensures Sound() && View() == OnHealth(old(View()), from, number, health, flags)
    {
      hide H.RsHandler.Valid, Tell;
      var dev := hub[from];
      NothingToTell(observed, reports, dev.name);
      if dev.pending.Some? && dev.pending.value.number == number && dev.pending.value.msgType == HEALTH_REQ {
        Report(dev.name, HealthReceived(health, flags));
        dev.pending := None;
      }
      OneRecordChanged(from);
    }

    /** `handleDeviceHealth` */
    method HandleDeviceHealth(from: byte, number: byte, health: byte, flags: uint16)
      requires Valid()
      modifies this`reports, hub.Values
      ensures Valid() && View() == OnHealth(old(View()), from, number, health, flags)
    {
      hide Sound, WellNamed, Handled;
      HubRuns.OperationsAreWellNamed(crcFile, base.node, View(), HubRuns.HealthFrom(from, number, health, flags));
      if from in hub {
        HealthFrom(from, number, health, flags);
      }
    }

    method Reply(to: byte, number: byte, code: byte)
      requires Sound()
      modifies base, base.messageBuffer
      ensures Sound() && View() == Replied(base.node, old(View()), to, number, code)
    {
      hide H.RsHandler.Valid, N.Written;
      base.SendAck(to, number, code);
      assert View().devices == old(View()).devices;
    }

    method TakeBlob(from: byte, number: byte, request: byte, data: Blob)
      requires Valid()
      modifies this`reports, hub.Values, base, base.messageBuffer
      ensures Valid()
      ensures var was := old(View());
              var after := OnBlob(was, from, number, request, data);
              View() == Replied(base.node, after, from, number, BlobCode(blobVerdict, was, from, number, after))
    {
      hide Sound, Table, OnBlob, Replied;
      var code := HandleBlobAnswer(from, number, request, data);
      Reply(from, number, code);
      ReplyKeepsNames(base.node, OnBlob(old(View()), from, number, request, data), from, number, code);
    }

    method TakeInfo(from: byte, number: byte, version: DeviceVersion, name: Name)
      requires Valid()
      modifies this`reports, this`nameToUid, hub.Values, base, base.messageBuffer
      ensures Sound()
      ensures View() == Replied(base.node, OnInfo(old(View()), from, number, version, name), from, number, OK)
      ensures Valid() <==> NamesStayUnique(old(View()), from, number, name)
    {
      hide Sound, Table, OnInfo, Replied, NamesStayUnique;
      HandleDeviceInfoAnswer(from, number, version, name);
      Reply(from, number, OK);
      ReplyKeepsNames(base.node, OnInfo(old(View()), from, number, version, name), from, number, OK);
    }

    method TakeHealth(from: byte, number: byte, health: byte, flags: uint16)
      requires Valid()
      modifies this`reports, hub.Values, base, base.messageBuffer
      ensures Valid()
      ensures View() == Replied(base.node, OnHealth(old(View()), from, number, health, flags), from, number, OK)
    {
      hide Sound, Table, OnHealth, Replied;
      HandleDeviceHealth(from, number, health, flags);
      Reply(from, number, OK);
      ReplyKeepsNames(base.node, OnHealth(old(View()), from, number, health, flags), from, number, OK);
    }

    // A message the hub has no handler of its own for.
    method ProcessByBase(message: seq<byte>)
      requires Valid() && WellFormed(message)
      modifies base, base.messageBuffer
      ensures Valid() && View() == old(View()).(traffic := N.Deliver(base.node, old(base.View()), Decode(message)))
    {
      hide H.RsHandler.Valid, Table, N.Deliver;
      base.Process(message);
      assert View().devices == old(View()).devices;
    }

    /** `process` of the handler, with the hub's own handlers: what one received message does, and its reply. */
    method Receive(message: seq<byte>, now: int)
      requires Valid() && WellFormed(message)
      modifies this`hub, this`nameToUid, this`temporaryUid, this`reports, hub.Values, base, base.messageBuffer
      ensures Sound() && View() == Received(base.node, blobVerdict, old(View()), Decode(message), now)
      ensures Valid() <==> KeepsNames(base.node, old(View()), Decode(message))
    {
      hide Sound, WellNamed, NamesStayUnique, N.Deliver, DecodeBody, OnAck, OnInfo, OnBlob, OnHealth, Replied;
      var m := Decode(message);
      if m.receiver == base.node.uid || m.receiver == RESERVED_UID {
        match m.body
        case Ack(code) => HandleAck(m.transmitter, m.number, code, now);
        case BlobAnswer(request, data) => TakeBlob(m.transmitter, m.number, request, data);
        case DeviceInfoAnw(version, name) => TakeInfo(m.transmitter, m.number, version, name);
        case HealthAnw(health, flags) => TakeHealth(m.transmitter, m.number, health, flags);
        case _ => ProcessByBase(message);
      }
    }

    // ----- user calls: refused for an unknown name, or a device that is not running -----

    // `hub[devUid]` creates no device: a name leads to a known one.
    lemma NamesLead(name: Name)
      requires Valid() && Address(nameToUid, name) != RESERVED_UID
      ensures Address(nameToUid, name) in hub && Finds(View(), name)
    {
      hide H.RsHandler.Valid;
    }

    /** `sendCmdToDevice` */
    method SendCmdToDevice(name: Name, command: byte, value: byte) returns (ok: bool)
      requires Valid()
      modifies hub.Values
      ensures Valid()
      ensures View() == HubRuns.Operate(crcFile, base.node, old(View()), HubRuns.CommandTo(name, command, value))
      ensures ok <==> old(Finds(View(), name) && Named(View(), name).state == Running)
    {
      hide H.RsHandler.Valid, WellNamed;
      HubRuns.OperationsAreWellNamed(crcFile, base.node, View(), HubRuns.CommandTo(name, command, value));
      var devUid := GetUidFromName(name);
      if devUid == RESERVED_UID {
        return false;
      }
      NamesLead(name);
      var dev := hub[devUid];
      ok := dev.state == Running;
      if ok {
        dev.commandQueue := dev.commandQueue + [(command, value)];
      }
      OneRecordChanged(devUid);
    }

    /** `sendBlobRequestToDevice` */
    method SendBlobRequestToDevice(name: Name, request: byte, size: byte) returns (ok: bool)
      requires Valid()
      modifies hub.Values
      ensures Valid()
      ensures View() == HubRuns.Operate(crcFile, base.node, old(View()), HubRuns.RequestTo(name, request, size))
      ensures ok <==> old(Finds(View(), name) && Named(View(), name).state == Running)
    {
      hide H.RsHandler.Valid, WellNamed;
      HubRuns.OperationsAreWellNamed(crcFile, base.node, View(), HubRuns.RequestTo(name, request, size));
      var devUid := GetUidFromName(name);
      if devUid == RESERVED_UID {
        return false;
      }
      NamesLead(name);
      var dev := hub[devUid];
      ok := dev.state == Running;
      if ok {
        dev.requestQueue := dev.requestQueue + [(request, size)];
      }
      OneRecordChanged(devUid);
    }

    /** `createSchedRequest`: accepted in any state. */
    method CreateSchedRequest(name: Name, req: byte, reqSize: byte, period: int) returns (ok: bool)
      requires Valid()
      modifies hub.Values
      ensures Valid()
      ensures View()
              == HubRuns.Operate(crcFile, base.node, old(View()), HubRuns.ScheduleFor(name, req, reqSize, period))
      ensures ok <==> old(Finds(View(), name))
    {
      hide H.RsHandler.Valid, WellNamed;
      HubRuns.OperationsAreWellNamed(crcFile, base.node, View(), HubRuns.ScheduleFor(name, req, reqSize, period));
      var devUid := GetUidFromName(name);
      if devUid == RESERVED_UID {
        return false;
      }
      NamesLead(name);
      var dev := hub[devUid];
      dev.telemSched := dev.telemSched + [Telemetry(req, reqSize, period, 0)];
      OneRecordChanged(devUid);
      return true;
    }

    method StartFileOn(dev: DeviceWrapper, file: byte, data: seq<byte>, chunkSize: nat) returns (ok: bool)
      modifies dev
      ensures dev.View() == StartFile(old(dev.View()), file, data, chunkSize)
      ensures ok <==> old(dev.state) == Running
    {
      if dev.state != Running {
        return false;
      }
      dev.state := FileTransfer;
      dev.fileTransContext := dev.fileTransContext.(
        state := Request, chunkSize := chunkSize, sentOffset := 0, data := data, file := file, firstPacket := true);
      return true;
    }

    /** `sendFile` */
    method SendFile(name: Name, file: byte, data: seq<byte>, chunkSize: nat) returns (ok: bool)
      requires Valid()
      modifies hub.Values
      ensures Valid()
      ensures View() == HubRuns.Operate(crcFile, base.node, old(View()), HubRuns.FileTo(name, file, data, chunkSize))
      ensures ok <==> old(Finds(View(), name) && Named(View(), name).state == Running)
    {
      hide H.RsHandler.Valid, WellNamed, StartFile;
      HubRuns.OperationsAreWellNamed(crcFile, base.node, View(), HubRuns.FileTo(name, file, data, chunkSize));
      var devUid := GetUidFromName(name);
      if devUid == RESERVED_UID {
        return false;
      }
      NamesLead(name);
      ok := StartFileOn(hub[devUid], file, data, chunkSize);
      OneRecordChanged(devUid);
    }

    method SendProbe(to: byte)
      requires base.Valid()
      modifies base, base.messageBuffer
      ensures base.Valid() && base.View() == Initiate(base.node, old(base.View()), to, Probe)
    {
      hide N.Written, H.RsHandler.Valid;
      var _ := base.SendProbe(to);
    }

    /** `probeAll`, without the pauses of its blocking form: a probe for every number a device may have. */
    method ProbeAll(maxDeviceCount: byte, broadcast: bool)
      requires Valid()
      modifies base, base.messageBuffer
      ensures Valid()
      ensures View() == old(View()).(traffic := Probed(base.node, old(base.View()), maxDeviceCount, broadcast))
    {
      hide N.Written, Initiate, Table, H.RsHandler.Valid;
      var uid := 1;
      while uid < maxDeviceCount
        invariant 1 <= uid && (uid <= maxDeviceCount || uid == 1)
        invariant base.Valid()
        invariant base.View() == Probed(base.node, old(base.View()), uid, broadcast)
      {
        SendProbe(if broadcast then RESERVED_UID else uid);
        uid := uid + 1;
      }
      assert View().devices == old(View()).devices;
    }
  }
}
